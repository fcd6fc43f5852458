/**
 * The records of the heap preload as bytes: what the instrumented process writes into the ring, what the recorder
 * reads out of it, and the thread's batch of frees on its way there.
 */
module HeapRecords {
  import opened Bits
  import opened HeapSession
  import opened RingBuffers
  import RingLayout

  const FREE_BATCH_MAGIC: U64 := 0x5346_5245_454e_5452
  const FREE_HEADER_BYTES: nat := 16
  const FREE_ENTRY_BYTES: nat := 16
  const ALLOC_METADATA_BYTES: nat := 328
  const STACK_SNAPSHOT_BYTES: nat := 8192
  const FLUSH_AGE_NS: nat := 100_000_000

  // ---- Words ----

  function WordBytes(words: seq<U64>): (s: seq<Byte>)
    ensures |s| == 8 * |words|
  {
    if words == [] then [] else Le64(words[0]) + WordBytes(words[1..])
  }

  function ReadU64(slice: seq<Byte>, at: nat): U64
    requires at + 8 <= |slice|
  {
    FromLe64(slice[at..at + 8])
  }

  /** Words stand one after another, eight bytes each. */
  lemma {:induction false} WordStands(words: seq<U64>, rest: seq<Byte>, k: nat)
    requires k < |words|
    ensures 8 * k + 8 <= |WordBytes(words) + rest|
    ensures (WordBytes(words) + rest)[8 * k..8 * k + 8] == Le64(words[k])
  {
    var s := WordBytes(words) + rest;
    hide Le64;
    if k == 0 {
    } else {
      WordStands(words[1..], rest, k - 1);
      var tail := WordBytes(words[1..]) + rest;
      assert s == Le64(words[0]) + tail;
      assert s[8 * k..8 * k + 8] == tail[8 * (k - 1)..8 * (k - 1) + 8];
    }
  }

  lemma ReadWord(words: seq<U64>, rest: seq<Byte>, k: nat)
    requires k < |words|
    ensures 8 * k + 8 <= |WordBytes(words) + rest|
    ensures ReadU64(WordBytes(words) + rest, 8 * k) == words[k]
  {
    hide WordBytes, Le64, FromLe64;
    WordStands(words, rest, k);
    Le64RoundTrip(words[k]);
  }

  // ---- Free batches ----

  predicate Fits(entries: seq<FreeEntry>) {
    |entries| < TWO_64 && forall k :: 0 <= k < |entries| ==> entries[k].seqno < TWO_64
  }

  function EntryWords(entries: seq<FreeEntry>): (words: seq<U64>)
    requires Fits(entries)
    ensures |words| == 2 * |entries|
    ensures forall k :: 0 <= k < |entries| ==>
      words[2 * k] == entries[k].seqno && words[2 * k + 1] == entries[k].address
  {
    seq(2 * |entries|, i requires 0 <= i < 2 * |entries| =>
      if i % 2 == 0 then entries[i / 2].seqno as U64 else entries[i / 2].address)
  }

  function BatchWords(entries: seq<FreeEntry>): seq<U64>
    requires Fits(entries)
  {
    [FREE_BATCH_MAGIC, |entries|] + EntryWords(entries)
  }

  /** A header with the magic number and the count, then number and address of every entry. */
  function EncodeBatch(entries: seq<FreeEntry>): seq<Byte>
    requires Fits(entries)
  {
    WordBytes(BatchWords(entries))
  }

  // ---- Allocation records ----

  /** The fields of an allocation record that the recorder reads, and those it skips. */
  datatype AllocMetadata = AllocMetadata(
    sequenceNumber: U64, allocSize: U64, sampleSize: U64, allocAddress: U64, stackPointer: U64, timestamp: U64,
    pc: U64, lr: U64, fp: U64, heapId: U32, arch: U32)

  /** The register block is padded with zeros to its full 272 bytes. */
  function MetadataWords(m: AllocMetadata): (words: seq<U64>)
    ensures |words| == 40
  {
    [m.sequenceNumber, m.allocSize, m.sampleSize, m.allocAddress, m.stackPointer, m.timestamp, m.pc, m.lr, m.fp, 0]
    + seq(30, i => 0)
  }

  function EncodeAlloc(m: AllocMetadata, snapshot: seq<Byte>): seq<Byte> {
    WordBytes(MetadataWords(m)) + (Le32(m.heapId) + Le32(m.arch) + snapshot)
  }

  // ---- What the recorder makes of a record ----

  datatype Decoded =
    | Frees(entries: seq<FreeEntry>)
    | Allocation(seqno: U64, sampleSize: U64, address: U64, sp: U64, pc: U64, lr: U64, fp: U64, stack: seq<Byte>)
    | Ignored

  function Min(a: nat, b: nat): nat {
    if a < b then a else b
  }

  /** As many entries as the header announces, but no more than there are bytes for. */
  function EntryCount(slice: seq<Byte>): (n: nat)
    requires |slice| >= FREE_HEADER_BYTES
    ensures FREE_HEADER_BYTES + n * FREE_ENTRY_BYTES <= |slice|
  {
    Min(ReadU64(slice, 8), (|slice| - FREE_HEADER_BYTES) / FREE_ENTRY_BYTES)
  }

  function EntryAt(slice: seq<Byte>, i: nat): FreeEntry
    requires FREE_HEADER_BYTES + i * FREE_ENTRY_BYTES + FREE_ENTRY_BYTES <= |slice|
  {
    var off := FREE_HEADER_BYTES + i * FREE_ENTRY_BYTES;
    FreeEntry(ReadU64(slice, off), ReadU64(slice, off + 8))
  }

  function DecodedFrees(slice: seq<Byte>, n: nat): (entries: seq<FreeEntry>)
    requires |slice| >= FREE_HEADER_BYTES + n * FREE_ENTRY_BYTES
    ensures |entries| == n
  {
    seq(n, i requires 0 <= i < n => EntryAt(slice, i))
  }

  function Decode(slice: seq<Byte>): Decoded {
    if |slice| >= FREE_HEADER_BYTES && ReadU64(slice, 0) == FREE_BATCH_MAGIC then
      Frees(DecodedFrees(slice, EntryCount(slice)))
    else if |slice| < ALLOC_METADATA_BYTES + STACK_SNAPSHOT_BYTES then Ignored
    else
      Allocation(ReadU64(slice, 0), ReadU64(slice, 16), ReadU64(slice, 24), ReadU64(slice, 32), ReadU64(slice, 48),
                 ReadU64(slice, 56), ReadU64(slice, 64), slice[ALLOC_METADATA_BYTES..])
  }

  /** A batch reads back entry for entry, in order. */
  lemma BatchReadsBack(entries: seq<FreeEntry>)
    requires Fits(entries)
    ensures Decode(EncodeBatch(entries)) == Frees(entries)
  {
    var words := BatchWords(entries);
    var s := EncodeBatch(entries);
    assert s + [] == s && |s| == FREE_HEADER_BYTES + |entries| * FREE_ENTRY_BYTES;
    assert words[0] == FREE_BATCH_MAGIC && words[1] == |entries|;
    hide WordBytes, ReadU64, Fits, EntryWords;
    ReadWord(words, [], 0);
    ReadWord(words, [], 1);
    assert EntryCount(s) == |entries|;
    hide BatchWords, EncodeBatch;
    forall i | 0 <= i < |entries|
      ensures EntryAt(s, i) == entries[i]
    {
      EntryReadsBack(entries, i);
    }
    assert DecodedFrees(s, |entries|) == entries;
  }

  lemma EntryWordPair(entries: seq<FreeEntry>, i: nat)
    requires Fits(entries) && i < |entries|
    ensures EntryWords(entries)[2 * i] == entries[i].seqno && EntryWords(entries)[2 * i + 1] == entries[i].address
  {
    hide EntryWords;
  }

  lemma EntryWordsAt(entries: seq<FreeEntry>, i: nat)
    requires Fits(entries) && i < |entries|
    ensures |BatchWords(entries)| == 2 + 2 * |entries|
    ensures BatchWords(entries)[2 + 2 * i] == entries[i].seqno && BatchWords(entries)[3 + 2 * i] == entries[i].address
  {
    hide EntryWords;
    EntryWordPair(entries, i);
  }

  lemma EntryReadsBack(entries: seq<FreeEntry>, i: nat)
    requires Fits(entries) && i < |entries|
    ensures |EncodeBatch(entries)| == FREE_HEADER_BYTES + |entries| * FREE_ENTRY_BYTES
    ensures EntryAt(EncodeBatch(entries), i) == entries[i]
  {
    hide EncodeBatch, Le64, FromLe64;
    BatchLayout(entries, i);
    Le64RoundTrip(entries[i].seqno);
    Le64RoundTrip(entries[i].address);
  }

  lemma MagicBytes()
    ensures Le64(FREE_BATCH_MAGIC) == Ascii("RTNEERFS")
  {
  }

  /** A batch byte by byte, numbers least significant byte first; a full batch of 128 entries has 2064 bytes. */
  lemma BatchLayout(entries: seq<FreeEntry>, i: nat)
    requires Fits(entries) && i < |entries|
    ensures var s := EncodeBatch(entries);
      && |s| == 16 + 16 * |entries| && (|entries| == FREE_BATCH_CAP ==> |s| == 2064)
      && s[..8] == Ascii("RTNEERFS") && s[8..16] == Le64(|entries|)
      && s[16 + 16 * i..24 + 16 * i] == Le64(entries[i].seqno)
      && s[24 + 16 * i..32 + 16 * i] == Le64(entries[i].address)
  {
    hide *;
    MagicBytes();
    BatchIsWords(entries);
    EntryWordsAt(entries, i);
    var words := BatchWords(entries);
    WordIsAt(words, 0, 0, 8);
    WordIsAt(words, 1, 8, 16);
    WordIsAt(words, 2 + 2 * i, 16 + 16 * i, 24 + 16 * i);
    WordIsAt(words, 3 + 2 * i, 24 + 16 * i, 32 + 16 * i);
  }

  lemma WordIsAt(words: seq<U64>, k: nat, from: nat, to: nat)
    requires k < |words| && from == 8 * k && to == from + 8
    ensures to <= |WordBytes(words) + []| && (WordBytes(words) + [])[from..to] == Le64(words[k])
  {
    hide WordBytes, Le64;
    WordStands(words, [], k);
  }

  lemma BatchIsWords(entries: seq<FreeEntry>)
    requires Fits(entries)
    ensures EncodeBatch(entries) == WordBytes(BatchWords(entries)) + []
    ensures |BatchWords(entries)| == 2 + 2 * |entries| && |EncodeBatch(entries)| == 16 + 16 * |entries|
    ensures |entries| == FREE_BATCH_CAP ==> |EncodeBatch(entries)| == 2064
    ensures BatchWords(entries)[0] == FREE_BATCH_MAGIC && BatchWords(entries)[1] == |entries|
  {
    hide WordBytes, EntryWords;
  }

  lemma FieldIsAt(m: AllocMetadata, snapshot: seq<Byte>, k: nat, from: nat, to: nat)
    requires k < 40 && from == 8 * k && to == from + 8
    ensures to <= |EncodeAlloc(m, snapshot)|
    ensures EncodeAlloc(m, snapshot)[from..to] == Le64(MetadataWords(m)[k])
  {
    hide WordBytes, Le64, Le32, MetadataWords;
    WordStands(MetadataWords(m), Le32(m.heapId) + Le32(m.arch) + snapshot, k);
  }

  lemma FieldsAre(m: AllocMetadata)
    ensures var w := MetadataWords(m);
      && w[0] == m.sequenceNumber && w[1] == m.allocSize && w[2] == m.sampleSize && w[3] == m.allocAddress
      && w[4] == m.stackPointer && w[5] == m.timestamp && w[6] == m.pc && w[7] == m.lr && w[8] == m.fp
  {
  }

  lemma AllocEnd(m: AllocMetadata, snapshot: seq<Byte>)
    ensures var s := EncodeAlloc(m, snapshot);
      && |s| == 328 + |snapshot| && s[328..] == snapshot
      && s[320..324] == Le32(m.heapId) && s[324..328] == Le32(m.arch)
  {
    hide WordBytes, Le32, MetadataWords;
  }

  lemma ZeroWord()
    ensures forall i :: 0 <= i < 8 ==> Le64(0)[i] == 0
  {
  }

  lemma PaddingWord(m: AllocMetadata, k: nat)
    requires 9 <= k < 40
    ensures MetadataWords(m)[k] == 0
  {
  }

  lemma PaddingIsZero(m: AllocMetadata, snapshot: seq<Byte>)
    ensures |EncodeAlloc(m, snapshot)| >= 320
    ensures forall i :: 72 <= i < 320 ==> EncodeAlloc(m, snapshot)[i] == 0
  {
    AllocEnd(m, snapshot);
    ZeroWord();
    hide *;
    forall i | 72 <= i < 320
      ensures EncodeAlloc(m, snapshot)[i] == 0
    {
      var k := i / 8;
      PaddingWord(m, k);
      FieldIsAt(m, snapshot, k, 8 * k, 8 * k + 8);
      assert EncodeAlloc(m, snapshot)[8 * k..8 * k + 8][i - 8 * k] == 0;
    }
  }

  /** An allocation record byte by byte: each field where the wire contract has it, then the stack. */
  lemma AllocLayout(m: AllocMetadata, snapshot: seq<Byte>)
    ensures var s := EncodeAlloc(m, snapshot);
      && |s| == 328 + |snapshot| && s[328..] == snapshot
      && s[0..8] == Le64(m.sequenceNumber) && s[8..16] == Le64(m.allocSize) && s[16..24] == Le64(m.sampleSize)
      && s[24..32] == Le64(m.allocAddress) && s[32..40] == Le64(m.stackPointer) && s[40..48] == Le64(m.timestamp)
      && s[48..56] == Le64(m.pc) && s[56..64] == Le64(m.lr) && s[64..72] == Le64(m.fp)
      && (forall i :: 72 <= i < 320 ==> s[i] == 0)
      && s[320..324] == Le32(m.heapId) && s[324..328] == Le32(m.arch)
  {
    hide *;
    FieldsAre(m);
    AllocEnd(m, snapshot);
    PaddingIsZero(m, snapshot);
    FieldIsAt(m, snapshot, 0, 0, 8);
    FieldIsAt(m, snapshot, 1, 8, 16);
    FieldIsAt(m, snapshot, 2, 16, 24);
    FieldIsAt(m, snapshot, 3, 24, 32);
    FieldIsAt(m, snapshot, 4, 32, 40);
    FieldIsAt(m, snapshot, 5, 40, 48);
    FieldIsAt(m, snapshot, 6, 48, 56);
    FieldIsAt(m, snapshot, 7, 56, 64);
    FieldIsAt(m, snapshot, 8, 64, 72);
  }

  lemma AllocReads(m: AllocMetadata, snapshot: seq<Byte>, k: nat)
    requires k < 10
    ensures 8 * k + 8 <= |EncodeAlloc(m, snapshot)|
    ensures ReadU64(EncodeAlloc(m, snapshot), 8 * k) == MetadataWords(m)[k]
  {
    hide MetadataWords, WordBytes, ReadU64;
    ReadWord(MetadataWords(m), Le32(m.heapId) + Le32(m.arch) + snapshot, k);
  }

  lemma AllocFieldsReadBack(m: AllocMetadata, snapshot: seq<Byte>)
    requires |snapshot| == STACK_SNAPSHOT_BYTES
    ensures var s := EncodeAlloc(m, snapshot);
      && |s| == ALLOC_METADATA_BYTES + STACK_SNAPSHOT_BYTES && s[ALLOC_METADATA_BYTES..] == snapshot
      && ReadU64(s, 0) == m.sequenceNumber && ReadU64(s, 16) == m.sampleSize && ReadU64(s, 24) == m.allocAddress
      && ReadU64(s, 32) == m.stackPointer && ReadU64(s, 48) == m.pc && ReadU64(s, 56) == m.lr && ReadU64(s, 64) == m.fp
  {
    var s := EncodeAlloc(m, snapshot);
    assert s[ALLOC_METADATA_BYTES..] == snapshot;
    assert |s| == ALLOC_METADATA_BYTES + STACK_SNAPSHOT_BYTES;
    var w := MetadataWords(m);
    assert w[0] == m.sequenceNumber && w[2] == m.sampleSize && w[3] == m.allocAddress && w[4] == m.stackPointer;
    assert w[6] == m.pc && w[7] == m.lr && w[8] == m.fp;
    hide EncodeAlloc, MetadataWords, WordBytes, ReadU64;
    AllocReads(m, snapshot, 0);
    AllocReads(m, snapshot, 2);
    AllocReads(m, snapshot, 3);
    AllocReads(m, snapshot, 4);
    AllocReads(m, snapshot, 6);
    AllocReads(m, snapshot, 7);
    AllocReads(m, snapshot, 8);
  }

  /**
   * An allocation record reads back field by field, if and only if its sequence number is not the number that
   * marks a batch: the two kinds of record share their first word.
   */
  lemma AllocReadsBackIff(m: AllocMetadata, snapshot: seq<Byte>)
    requires |snapshot| == 8192
    ensures Decode(EncodeAlloc(m, snapshot))
         == Allocation(m.sequenceNumber, m.sampleSize, m.allocAddress, m.stackPointer, m.pc, m.lr, m.fp, snapshot)
      <==> m.sequenceNumber != FREE_BATCH_MAGIC
  {
    AllocFieldsReadBack(m, snapshot);
    hide EncodeAlloc, ReadU64, DecodedFrees, EntryCount;
  }

  /** What the recorder takes a record for: a batch by its first eight bytes, an allocation by its length. */
  lemma KindOf(slice: seq<Byte>)
    ensures Decode(slice).Frees? <==> |slice| >= 16 && slice[..8] == Ascii("RTNEERFS")
    ensures Decode(slice).Ignored? <==> !Decode(slice).Frees? && |slice| < 8520
  {
    MagicBytes();
    hide DecodedFrees, EntryCount, Le64, FromLe64, Ascii;
    if |slice| >= 16 {
      assert slice[0..8] == slice[..8];
      WordIs(slice[..8], FREE_BATCH_MAGIC);
    }
  }

  lemma WordIs(s: seq<Byte>, v: U64)
    requires |s| == 8
    ensures FromLe64(s) == v <==> s == Le64(v)
  {
    Le64RoundTrip(v);
    if FromLe64(s) == v {
      BytesOfWord(s);
    }
  }

  lemma BytesOfWord(s: seq<Byte>)
    requires |s| == 8
    ensures Le64(FromLe64(s)) == s
  {
    var lo, hi := FromLe32(s[..4]), FromLe32(s[4..]);
    LeastFirst(s[..4]);
    LeastFirst(s[4..]);
    hide FromLe32;
    DivModUnique(lo + TWO_32 * hi, TWO_32, hi, lo);
    assert Le32(lo) == s[..4] && Le32(hi) == s[4..];
    assert s[..4] + s[4..] == s;
  }

  /** The recorder's loop over a batch. */
  method DecodeRecord(slice: seq<Byte>) returns (r: Decoded)
    ensures r == Decode(slice)
  {
    hide ReadU64;
    if |slice| >= FREE_HEADER_BYTES && ReadU64(slice, 0) == FREE_BATCH_MAGIC {
      var num := ReadU64(slice, 8);
      var have := (|slice| - FREE_HEADER_BYTES) / FREE_ENTRY_BYTES;
      var entries := [];
      for i := 0 to Min(num, have)
        invariant entries == DecodedFrees(slice, i)
      {
        var off := FREE_HEADER_BYTES + i * FREE_ENTRY_BYTES;
        entries := entries + [FreeEntry(ReadU64(slice, off), ReadU64(slice, off + 8))];
      }
      return Frees(entries);
    }
    if |slice| < ALLOC_METADATA_BYTES + STACK_SNAPSHOT_BYTES {
      return Ignored;
    }
    return Allocation(ReadU64(slice, 0), ReadU64(slice, 16), ReadU64(slice, 24), ReadU64(slice, 32), ReadU64(slice, 48),
                      ReadU64(slice, 56), ReadU64(slice, 64), slice[ALLOC_METADATA_BYTES..]);
  }

  // ---- A thread's batch ----

  /** The counters that every thread shares. */
  class Globals {
    var nextSeqno: U64
    var sessionGen: U64
    var numDropped: U64

    constructor ()
      ensures nextSeqno == 1 && sessionGen == 0 && numDropped == 0
    {
      nextSeqno, sessionGen, numDropped := 1, 0, 0;
    }

    /** The counter wraps around. */
    method DrawSeqno() returns (seqno: U64)
      modifies `nextSeqno
      ensures seqno == old(nextSeqno) && nextSeqno == (old(nextSeqno) + 1) % TWO_64
    {
      seqno := nextSeqno;
      nextSeqno := (nextSeqno + 1) % TWO_64;
    }
  }

  /** The frees that a thread has queued and not sent yet, with the session they belong to. */
  class FreeBatchTls {
    const entries: array<FreeEntry>
    var num: nat
    var firstNs: nat
    var gen: U64

    ghost predicate Valid()
      reads this, entries
    {
      entries.Length == FREE_BATCH_CAP && num <= FREE_BATCH_CAP && Fits(entries[..num])
    }

    ghost function Contents(): seq<FreeEntry>
      reads this, entries
      requires Valid()
    {
      entries[..num]
    }

    constructor ()
      ensures Valid() && fresh(entries) && num == 0 && gen == 0
    {
      entries := new FreeEntry[FREE_BATCH_CAP](i => FreeEntry(0, 0));
      num, firstNs, gen := 0, 0, 0;
    }

    /** What is left of the batch in this session: entries of an earlier session are forgotten. */
    ghost function Kept(sessionGen: U64): seq<FreeEntry>
      reads this, entries
      requires Valid()
    {
      if gen == sessionGen then Contents() else []
    }

    /** Add one free; the batch is full, or its oldest entry stale, exactly when the result says so. */
    method AddFree(globals: Globals, addr: U64, now: nat) returns (flush: bool)
      requires Valid() && num < FREE_BATCH_CAP
      modifies this, entries, globals`nextSeqno
      ensures Valid() && num > 0 && gen == globals.sessionGen
      ensures Contents() == old(Kept(globals.sessionGen)) + [FreeEntry(old(globals.nextSeqno), addr)]
      ensures globals.nextSeqno == (old(globals.nextSeqno) + 1) % TWO_64
      ensures firstNs == if num == 1 then now else old(firstNs)
      ensures flush <==> num >= 128 || now > firstNs + 100_000_000
    {
      if gen != globals.sessionGen {
        num := 0;
        gen := globals.sessionGen;
      }
      var seqno := globals.DrawSeqno();
      ghost var kept := entries[..num];
      entries[num] := FreeEntry(seqno, addr);
      num := num + 1;
      assert entries[..num] == kept + [FreeEntry(seqno, addr)];
      if num == 1 {
        firstNs := now;
      }
      flush := num >= FREE_BATCH_CAP || (if now > firstNs then now - firstNs else 0) > FLUSH_AGE_NS;
    }

    /** Queue one free: afterwards the batch has room again, and nothing was lost unless the ring had no room. */
    method QueueFree(globals: Globals, ring: RingBuffer?, addr: U64, now: nat)
      requires Valid() && num < FREE_BATCH_CAP && (ring != null ==> ring.Valid())
      modifies this, entries, globals, if ring == null then {} else {ring, ring.mem}
      ensures Valid() && num < FREE_BATCH_CAP && gen == globals.sessionGen == old(globals.sessionGen)
      ensures ring != null ==> ring.Valid() && ring.done == old(ring.done)
      ensures globals.nextSeqno == (old(globals.nextSeqno) + 1) % TWO_64
      ensures var n := |old(Kept(globals.sessionGen))| + 1;
        num == 0 <==> n >= FREE_BATCH_CAP || now > (if n == 1 then now else old(firstNs)) + FLUSH_AGE_NS
      ensures var batch := old(Kept(globals.sessionGen)) + [FreeEntry(old(globals.nextSeqno), addr)];
        || (Contents() == batch && globals.numDropped == old(globals.numDropped) &&
            (ring != null ==> ring.log == old(ring.log)))
        || (Contents() == [] && ring == null)
        || (Contents() == [] && ring != null && globals.numDropped == (old(globals.numDropped) + 1) % TWO_64
            && ring.log == old(ring.log))
        || (Contents() == [] && ring != null && globals.numDropped == old(globals.numDropped) && Fits(batch)
            && ring.log == old(ring.log)
                 + [RingLayout.Record(old(ring.writePos), EncodeBatch(batch), |EncodeBatch(batch)|, true)])
    {
      hide RingLayout.Good, RingLayout.Total, EncodeBatch, Fits;
      var flush := AddFree(globals, addr, now);
      if flush {
        FlushFrees(globals, ring);
      }
    }

    /** Write the batch as one record and start over; without room, or without a ring, the batch is lost. */
    method FlushFrees(globals: Globals, ring: RingBuffer?)
      requires Valid() && (ring != null ==> ring.Valid())
      modifies `num, globals`numDropped, if ring == null then {} else {ring, ring.mem}
      ensures Valid() && num == 0 && (ring != null ==> ring.Valid() && ring.done == old(ring.done))
      ensures old(num) == 0 || ring == null ==>
        globals.numDropped == old(globals.numDropped) && (ring != null ==> ring.View() == old(ring.View()))
      ensures old(num) > 0 && ring != null ==>
        var payload := EncodeBatch(old(Contents()));
        if old(ring.writePos - ring.readPos) + RingLayout.Total(|payload|) <= ring.size then
          && ring.log == old(ring.log) + [RingLayout.Record(old(ring.writePos), payload, |payload|, true)]
          && globals.numDropped == old(globals.numDropped)
        else ring.log == old(ring.log) && globals.numDropped == (old(globals.numDropped) + 1) % TWO_64
    {
      hide RingLayout.Good, RingLayout.Total;
      if num == 0 {
        return;
      }
      if ring != null {
        ghost var queued := Contents();
        var payload := EncodeBatch(entries[..num]);
        var sent := WriteRecord(ring, payload);
        if !sent {
          globals.numDropped := (globals.numDropped + 1) % TWO_64;
        }
      }
      num := 0;
    }
  }
}
