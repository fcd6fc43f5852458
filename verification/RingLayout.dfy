/**
 * The shared-memory ring as bytes: records laid end to end over ever-growing positions, each position stored
 * at its value modulo the size through a doubled (mirrored) mapping.
 */
module RingLayout {
  import opened Bits

  const HEADER_BYTES := 8
  const RECORD_ALIGN := 8

  predicate Aligned(p: nat) {
    p % RECORD_ALIGN == 0
  }

  lemma AlignedSum(p: nat, q: nat)
    requires Aligned(p) && Aligned(q)
    ensures Aligned(p + q)
  {
  }

  function AlignUp(n: nat): (r: nat)
    ensures Aligned(r) && n <= r < n + RECORD_ALIGN
  {
    (n + RECORD_ALIGN - 1) / RECORD_ALIGN * RECORD_ALIGN
  }

  /** Ring bytes taken by a record with a payload of `n` bytes. */
  function Total(n: nat): (t: nat)
    ensures Aligned(t) && n + HEADER_BYTES <= t
  {
    AlignUp(n + HEADER_BYTES)
  }

  /** `p & (size - 1)`, for a size that is a power of two. */
  function Slot(p: nat, size: nat): (i: nat)
    requires size > 0
    ensures i < size
  {
    p % size
  }

  /** The byte that offset `i` of the doubled mapping reaches. */
  function Mirror(i: nat, size: nat): (j: nat)
    requires i < 2 * size
    ensures j < size
  {
    if i < size then i else i - size
  }

  predicate GoodSize(size: nat) {
    size > 0 && size % RECORD_ALIGN == 0 && size <= TWO_32
  }

  /** Pointer arithmetic into the doubled mapping wraps exactly like the position does. */
  lemma MirrorWraps(p: nat, o: nat, size: nat)
    requires size > 0 && o <= size
    ensures Slot(p, size) + o < 2 * size
    ensures Mirror(Slot(p, size) + o, size) == Slot(p + o, size)
  {
    var q, r := p / size, p % size;
    if r + o < size {
      DivModUnique(p + o, size, q, r + o);
    } else if r + o < 2 * size {
      Distribute(q, 1, size);
      DivModUnique(p + o, size, q + 1, r + o - size);
    }
  }

  /** Two positions less than a ring apart never share a byte. */
  lemma SlotsDistinct(p: nat, q: nat, size: nat)
    requires size > 0 && p < q < p + size
    ensures Slot(p, size) != Slot(q, size)
  {
    MirrorWraps(p, q - p, size);
  }

  // ---- Records ----

  /** A reservation: where it starts, what its writer is going to store, and how far the writer has got. */
  datatype Record = Record(start: nat, payload: seq<Byte>, written: nat, published: bool) {
    function End(): nat {
      start + Total(|payload|)
    }

    /** The size header: zero until the record is published. */
    function Header(): U32
      requires |payload| < TWO_32
    {
      if published then |payload| else 0
    }
  }

  /** The bytes, the two positions, every reservation ever made, and how many of them have been consumed. */
  datatype Core = Core(size: nat, mem: seq<Byte>, writePos: nat, readPos: nat, log: seq<Record>, done: nat)

  function ByteAt(c: Core, p: nat): Byte
    requires c.size > 0 && |c.mem| == c.size
  {
    c.mem[Slot(p, c.size)]
  }

  /** The bytes of `bytes` stand at position `p`, following the wrap. */
  ghost predicate BytesAt(c: Core, p: nat, bytes: seq<Byte>)
    requires c.size > 0 && |c.mem| == c.size
  {
    forall o :: 0 <= o < |bytes| ==> ByteAt(c, p + o) == bytes[o]
  }

  ghost predicate RecordStored(c: Core, r: Record)
    requires c.size > 0 && |c.mem| == c.size
  {
    && |r.payload| < TWO_32 && r.written <= |r.payload|
    && BytesAt(c, r.start, Le32(r.Header()))
    && BytesAt(c, r.start + HEADER_BYTES, r.payload[..r.written])
  }

  predicate Sized(c: Core) {
    GoodSize(c.size) && |c.mem| == c.size
  }

  /** Records tile the positions from 0 to `writePos` with no gap and no overlap. */
  ghost predicate Tiled(c: Core) {
    && (|c.log| == 0 ==> c.writePos == 0)
    && (|c.log| > 0 ==> c.log[0].start == 0 && c.log[|c.log| - 1].End() == c.writePos)
    && (forall i, j :: 0 <= i < j < |c.log| && j == i + 1 ==> c.log[j].start == c.log[i].End())
    && (forall i :: 0 <= i < |c.log| ==> Aligned(c.log[i].start) && c.log[i].End() <= c.writePos)
    && (forall i, j :: 0 <= i < j < |c.log| ==> c.log[i].End() <= c.log[j].start)
  }

  /** The reader stands at the start of the first record it has not consumed. */
  ghost predicate Positioned(c: Core) {
    && c.done <= |c.log|
    && c.readPos == (if c.done < |c.log| then c.log[c.done].start else c.writePos)
    && c.readPos <= c.writePos <= c.readPos + c.size
    && Aligned(c.writePos) && Aligned(c.readPos)
  }

  /** A record is published only when all of it has been written, and consumed only when it is published. */
  ghost predicate Ordered(c: Core) {
    && (forall i :: 0 <= i < |c.log| && c.log[i].published ==> c.log[i].written == |c.log[i].payload|)
    && (forall i :: 0 <= i < |c.log| && i < c.done ==> c.log[i].published)
  }

  ghost predicate Stored(c: Core)
    requires Sized(c)
  {
    forall i :: c.done <= i < |c.log| ==> RecordStored(c, c.log[i])
  }

  ghost predicate Good(c: Core) {
    Sized(c) && Tiled(c) && Positioned(c) && Ordered(c) && Stored(c)
  }

  /** Everything not yet consumed lies inside the one ring's worth of positions from `readPos`. */
  lemma LiveWindow(c: Core, i: nat)
    requires Tiled(c) && Positioned(c) && c.done <= i < |c.log|
    ensures c.readPos <= c.log[i].start && c.log[i].End() <= c.writePos <= c.readPos + c.size
  {
    hide Total;
  }

  // ---- The stores that writers and reader perform ----

  /** Store `b` through a pointer that is `o` bytes past the slot of position `p`. */
  function Poke(c: Core, p: nat, o: nat, b: Byte): (r: Core)
    requires Sized(c) && o < c.size
    ensures |r.mem| == c.size && r == c.(mem := r.mem)
  {
    MirrorWraps(p, o, c.size);
    c.(mem := c.mem[Mirror(Slot(p, c.size) + o, c.size) := b])
  }

  /** Store `bytes` one after the other, from `o` bytes past the slot of position `p`. */
  function PokeAll(c: Core, p: nat, o: nat, bytes: seq<Byte>): (r: Core)
    requires Sized(c) && o + |bytes| <= c.size
    ensures |r.mem| == c.size && r == c.(mem := r.mem)
    decreases |bytes|
  {
    if bytes == [] then c else PokeAll(Poke(c, p, o, bytes[0]), p, o + 1, bytes[1..])
  }

  /** The 32-bit store of a size header at position `p`. */
  function PokeHeader(c: Core, p: nat, v: U32): (r: Core)
    requires Sized(c)
    ensures |r.mem| == c.size && r == c.(mem := r.mem)
  {
    PokeAll(c, p, 0, Le32(v))
  }

  /** The 32-bit load of a size header at position `p`. */
  function PeekHeader(c: Core, p: nat): U32
    requires Sized(c)
  {
    MirrorWraps(p, 0, c.size);
    MirrorWraps(p, 1, c.size);
    MirrorWraps(p, 2, c.size);
    MirrorWraps(p, 3, c.size);
    var at := Slot(p, c.size);
    FromLe32([c.mem[Mirror(at, c.size)], c.mem[Mirror(at + 1, c.size)], c.mem[Mirror(at + 2, c.size)],
              c.mem[Mirror(at + 3, c.size)]])
  }

  function PeekByte(c: Core, p: nat, o: nat): Byte
    requires Sized(c) && o < c.size
  {
    MirrorWraps(p, o, c.size);
    c.mem[Mirror(Slot(p, c.size) + o, c.size)]
  }

  /** Zero the header of the record about to be reserved. */
  function Clear(c: Core): (r: Core)
    requires Sized(c)
  {
    PokeHeader(c, c.writePos, 0)
  }

  /** Make the reservation visible by moving `writePos`. */
  function Advance(c: Core, payload: seq<Byte>): Core {
    c.(writePos := c.writePos + Total(|payload|), log := c.log + [Record(c.writePos, payload, 0, false)])
  }

  /** The owner of record `i` stores its next payload byte. */
  function WriteNext(c: Core, i: nat): (r: Core)
    requires Sized(c) && i < |c.log| && c.log[i].written < |c.log[i].payload| && Total(|c.log[i].payload|) <= c.size
  {
    var rec := c.log[i];
    var n := rec.written;
    Poke(c, rec.start, HEADER_BYTES + n, rec.payload[n]).(log := c.log[i := rec.(written := n + 1)])
  }

  /** The owner of record `i` stores its size header. */
  function Publish(c: Core, i: nat): (r: Core)
    requires Sized(c) && i < |c.log| && |c.log[i].payload| < TWO_32
  {
    PokeHeader(c, c.log[i].start, |c.log[i].payload|).(log := c.log[i := c.log[i].(published := true)])
  }

  /** The reader steps over a payload of `n` bytes. */
  function Consume(c: Core, n: nat): Core {
    c.(readPos := c.readPos + Total(n), done := c.done + 1)
  }

  // ---- Each store keeps the layout ----

  /** A poke sets its own byte ... */
  lemma PokeSets(c: Core, p: nat, o: nat, b: Byte)
    requires Sized(c) && o < c.size
    ensures ByteAt(Poke(c, p, o, b), p + o) == b
  {
    hide Slot, GoodSize, Mirror;
    MirrorWraps(p, o, c.size);
  }

  /** ... and no other byte of the window that holds it. */
  lemma PokeKeeps(c: Core, p: nat, o: nat, b: Byte, q: nat)
    requires Sized(c) && o < c.size && q != p + o
    requires q < p + o + c.size && p + o < q + c.size
    ensures ByteAt(Poke(c, p, o, b), q) == ByteAt(c, q)
  {
    hide Slot, GoodSize, Mirror;
    MirrorWraps(p, o, c.size);
    if q < p + o {
      SlotsDistinct(q, p + o, c.size);
    } else {
      SlotsDistinct(p + o, q, c.size);
    }
  }

  lemma {:induction false} PokeAllKeeps(c: Core, p: nat, o: nat, bytes: seq<Byte>, q: nat)
    requires Sized(c) && o + |bytes| <= c.size && (q < p + o || p + o + |bytes| <= q)
    requires q < p + o + c.size && p + o + |bytes| <= q + c.size
    ensures ByteAt(PokeAll(c, p, o, bytes), q) == ByteAt(c, q)
    decreases |bytes|
  {
    hide Poke, ByteAt, GoodSize;
    if bytes == [] {
    } else {
      PokeKeeps(c, p, o, bytes[0], q);
      PokeAllKeeps(Poke(c, p, o, bytes[0]), p, o + 1, bytes[1..], q);
    }
  }

  lemma {:induction false} PokeAllSets(c: Core, p: nat, o: nat, bytes: seq<Byte>, k: nat)
    requires Sized(c) && o + |bytes| <= c.size && k < |bytes|
    ensures ByteAt(PokeAll(c, p, o, bytes), p + o + k) == bytes[k]
    decreases |bytes|
  {
    hide Poke, ByteAt, GoodSize;
    var d := Poke(c, p, o, bytes[0]);
    if k == 0 {
      PokeSets(c, p, o, bytes[0]);
      PokeAllKeeps(d, p, o + 1, bytes[1..], p + o);
    } else {
      PokeAllSets(d, p, o + 1, bytes[1..], k - 1);
    }
  }

  /** A header store keeps every byte of the window outside its own four. */
  lemma HeaderKeeps(c: Core, p: nat, v: U32, q: nat)
    requires Sized(c) && (q < p || p + 4 <= q)
    requires q < p + c.size && p + 4 <= q + c.size
    ensures ByteAt(PokeHeader(c, p, v), q) == ByteAt(c, q)
  {
    PokeAllKeeps(c, p, 0, Le32(v), q);
  }

  lemma HeaderSets(c: Core, p: nat, v: U32)
    requires Sized(c)
    ensures BytesAt(PokeHeader(c, p, v), p, Le32(v))
  {
    hide PokeAll, ByteAt, Le32;
    forall k | 0 <= k < 4
      ensures ByteAt(PokeHeader(c, p, v), p + k) == Le32(v)[k]
    {
      PokeAllSets(c, p, 0, Le32(v), k);
    }
  }

  /** Loading a header that was stored gives the stored value. */
  lemma HeaderLoads(c: Core, p: nat, v: U32)
    requires Sized(c) && BytesAt(c, p, Le32(v))
    ensures PeekHeader(c, p) == v
  {
    assert c.size >= 8;
    hide Slot, GoodSize, Mirror, Le32, FromLe32;
    MirrorWraps(p, 0, c.size);
    MirrorWraps(p, 1, c.size);
    MirrorWraps(p, 2, c.size);
    MirrorWraps(p, 3, c.size);
    assert ByteAt(c, p + 0) == Le32(v)[0];
    assert ByteAt(c, p + 1) == Le32(v)[1];
    assert ByteAt(c, p + 2) == Le32(v)[2];
    assert ByteAt(c, p + 3) == Le32(v)[3];
    assert [c.mem[Mirror(Slot(p, c.size), c.size)], c.mem[Mirror(Slot(p, c.size) + 1, c.size)],
            c.mem[Mirror(Slot(p, c.size) + 2, c.size)], c.mem[Mirror(Slot(p, c.size) + 3, c.size)]] == Le32(v);
    Le32RoundTrip(v);
  }

  /** A record keeps its bytes under any change outside them. */
  lemma RecordKept(c: Core, d: Core, r: Record)
    requires Sized(c) && Sized(d) && c.size == d.size && RecordStored(c, r)
    requires forall q :: r.start <= q < r.End() ==> ByteAt(d, q) == ByteAt(c, q)
    ensures RecordStored(d, r)
  {
    hide ByteAt, Le32, GoodSize, AlignUp;
  }

  /** Only the stores to `mem` differ, and they missed every live record. */
  lemma MemoryKeepsGood(c: Core, mem: seq<Byte>)
    requires Good(c) && |mem| == c.size
    requires forall i, q :: c.done <= i < |c.log| && c.log[i].start <= q < c.log[i].End() ==>
               ByteAt(c.(mem := mem), q) == ByteAt(c, q)
    ensures Good(c.(mem := mem))
  {
    var d := c.(mem := mem);
    assert Tiled(d) && Positioned(d) && Ordered(d) && Sized(d);
    hide Tiled, Positioned, Ordered, ByteAt, RecordStored, GoodSize;
    forall i | c.done <= i < |c.log|
      ensures RecordStored(d, c.log[i])
    {
      RecordKept(c, d, c.log[i]);
    }
  }

  lemma ClearKeepsGood(c: Core)
    requires Good(c) && c.writePos - c.readPos + HEADER_BYTES <= c.size
    ensures Good(Clear(c)) && BytesAt(Clear(c), c.writePos, Le32(0))
  {
    var d := Clear(c);
    HeaderSets(c, c.writePos, 0);
    assert d == c.(mem := d.mem);
    hide Good, Tiled, Positioned, ByteAt, PokeHeader;
    assert Tiled(c) && Positioned(c) by {
      GoodParts(c);
    }
    forall i, q | c.done <= i < |c.log| && c.log[i].start <= q < c.log[i].End()
      ensures ByteAt(d, q) == ByteAt(c, q)
    {
      LiveWindow(c, i);
      HeaderKeeps(c, c.writePos, 0, q);
    }
    MemoryKeepsGood(c, d.mem);
  }

  lemma GoodParts(c: Core)
    requires Good(c)
    ensures Sized(c) && Tiled(c) && Positioned(c) && Ordered(c) && Stored(c)
  {
  }

  lemma AdvanceTiles(c: Core, payload: seq<Byte>)
    requires Tiled(c) && Aligned(c.writePos)
    ensures Tiled(Advance(c, payload)) && Aligned(Advance(c, payload).writePos)
  {
    AlignedSum(c.writePos, Total(|payload|));
    hide AlignUp, Aligned, Total;
    var d := Advance(c, payload);
    assert forall i :: 0 <= i < |c.log| ==> d.log[i] == c.log[i];
    assert d.log[|c.log|].start == c.writePos && d.log[|c.log|].End() == d.writePos;
  }

  lemma AdvanceGeometry(c: Core, payload: seq<Byte>)
    requires Tiled(c) && Positioned(c) && Ordered(c)
    requires c.writePos - c.readPos + Total(|payload|) <= c.size
    ensures Tiled(Advance(c, payload)) && Positioned(Advance(c, payload)) && Ordered(Advance(c, payload))
  {
    AdvanceTiles(c, payload);
    hide AlignUp, Aligned, Total, Tiled;
    var d := Advance(c, payload);
    assert forall i :: 0 <= i < |c.log| ==> d.log[i] == c.log[i];
  }

  lemma AdvanceKeepsGood(c: Core, payload: seq<Byte>)
    requires Good(c) && c.writePos - c.readPos + Total(|payload|) <= c.size
    requires BytesAt(c, c.writePos, Le32(0))
    ensures Good(Advance(c, payload))
  {
    var d := Advance(c, payload);
    AdvanceGeometry(c, payload);
    assert RecordStored(d, d.log[|c.log|]) by {
      assert d.log[|c.log|].payload[..0] == [];
      hide ByteAt, Le32, AlignUp;
    }
    hide Tiled, Positioned, Ordered, ByteAt, RecordStored, AlignUp, Le32;
    forall i | c.done <= i < |d.log|
      ensures RecordStored(d, d.log[i])
    {
      if i < |c.log| {
        RecordKept(c, d, c.log[i]);
      }
    }
  }

  /** The tiling depends only on where records start and how long their payloads are. */
  lemma SameShape(c: Core, d: Core)
    requires Tiled(c) && Positioned(c) && d == c.(mem := d.mem, log := d.log) && |d.log| == |c.log|
    requires forall i :: 0 <= i < |c.log| ==> d.log[i].start == c.log[i].start && d.log[i].payload == c.log[i].payload
    ensures Tiled(d) && Positioned(d)
  {
    hide Total, Aligned;
    assert forall i :: 0 <= i < |c.log| ==> d.log[i].End() == c.log[i].End();
  }

  lemma WriteNextGeometry(c: Core, i: nat)
    requires Good(c) && i < |c.log| && c.log[i].written < |c.log[i].payload| && Total(|c.log[i].payload|) <= c.size
    ensures Tiled(WriteNext(c, i)) && Positioned(WriteNext(c, i)) && Ordered(WriteNext(c, i))
  {
    hide Poke, Tiled, Positioned, Stored, Total, Good, GoodSize;
    GoodParts(c);
    SameShape(c, WriteNext(c, i));
  }

  /** Record `j` lies wholly before or wholly after record `i`. */
  lemma Apart(c: Core, i: nat, j: nat)
    requires Tiled(c) && i < |c.log| && j < |c.log| && i != j
    ensures c.log[j].End() <= c.log[i].start || c.log[i].End() <= c.log[j].start
  {
    hide Total;
  }

  lemma WriteNextRecord(c: Core, d: Core, r: Record)
    requires Sized(c) && Sized(d) && RecordStored(c, r) && r.written < |r.payload|
    requires var p := r.start + HEADER_BYTES + r.written;
      ByteAt(d, p) == r.payload[r.written] && forall q :: r.start <= q < r.End() && q != p ==>
          ByteAt(d, q) == ByteAt(c, q)
    ensures RecordStored(d, r.(written := r.written + 1))
  {
    var n := r.written;
    assert r.payload[..n + 1] == r.payload[..n] + [r.payload[n]];
    hide ByteAt, Le32, GoodSize, AlignUp;
  }

  lemma StoredAt(c: Core, j: nat)
    requires Good(c) && c.done <= j < |c.log|
    ensures RecordStored(c, c.log[j])
  {
  }

  lemma WriteNextEffect(c: Core, i: nat)
    requires Sized(c) && i < |c.log| && c.log[i].written < |c.log[i].payload| && Total(|c.log[i].payload|) <= c.size
    ensures var rec, d := c.log[i], WriteNext(c, i);
      && d == c.(mem := d.mem, log := c.log[i := rec.(written := rec.written + 1)]) && |d.mem| == c.size
      && ByteAt(d, rec.start + HEADER_BYTES + rec.written) == rec.payload[rec.written]
  {
    var rec := c.log[i];
    PokeSets(c, rec.start, HEADER_BYTES + rec.written, rec.payload[rec.written]);
    hide Poke, GoodSize, Slot;
  }

  lemma WriteNextKeepsRecord(c: Core, i: nat, j: nat)
    requires Good(c) && c.done <= i < |c.log| && c.log[i].written < |c.log[i].payload| && c.done <= j < |c.log|
    requires Total(|c.log[i].payload|) <= c.size
    ensures RecordStored(WriteNext(c, i), WriteNext(c, i).log[j])
  {
    hide Good, Tiled, Positioned, Ordered, Stored, RecordStored, AlignUp, ByteAt, Poke, WriteNext, GoodSize;
    GoodParts(c);
    StoredAt(c, j);
    WriteNextEffect(c, i);
    LiveWindow(c, i);
    LiveWindow(c, j);
    var rec := c.log[i];
    var d := WriteNext(c, i);
    var p := rec.start + HEADER_BYTES + rec.written;
    forall q | c.log[j].start <= q < c.log[j].End() && q != p
      ensures ByteAt(d, q) == ByteAt(c, q)
    {
      WriteNextByte(c, i, q);
    }
    if j == i {
      WriteNextRecord(c, d, rec);
    } else {
      Apart(c, i, j);
      RecordKept(c, d, c.log[j]);
    }
  }

  lemma WriteNextKeepsGood(c: Core, i: nat)
    requires Good(c) && c.done <= i < |c.log| && c.log[i].written < |c.log[i].payload|
    ensures Total(|c.log[i].payload|) <= c.size
    ensures Good(WriteNext(c, i))
  {
    GoodParts(c);
    LiveWindow(c, i);
    WriteNextGeometry(c, i);
    var d := WriteNext(c, i);
    assert |d.log| == |c.log| && d.done == c.done;
    hide Tiled, Positioned, Ordered, RecordStored, WriteNext, Total;
    forall j | d.done <= j < |d.log|
      ensures RecordStored(d, d.log[j])
    {
      WriteNextKeepsRecord(c, i, j);
    }
  }

  lemma WriteNextByte(c: Core, i: nat, q: nat)
    requires Sized(c) && i < |c.log| && c.log[i].written < |c.log[i].payload| && Total(|c.log[i].payload|) <= c.size
    requires var p := c.log[i].start + HEADER_BYTES + c.log[i].written; q != p && q < p + c.size && p < q + c.size
    ensures ByteAt(WriteNext(c, i), q) == ByteAt(c, q)
  {
    hide Slot, GoodSize, Poke, AlignUp;
    PokeKeeps(c, c.log[i].start, HEADER_BYTES + c.log[i].written, c.log[i].payload[c.log[i].written], q);
  }

  lemma PublishGeometry(c: Core, i: nat)
    requires Good(c) && i < |c.log| && |c.log[i].payload| < TWO_32 && c.log[i].written == |c.log[i].payload|
    ensures Tiled(Publish(c, i)) && Positioned(Publish(c, i)) && Ordered(Publish(c, i))
  {
    hide Good, PokeHeader, Tiled, Positioned, Stored, Total, GoodSize;
    GoodParts(c);
    SameShape(c, Publish(c, i));
  }

  lemma PublishRecord(c: Core, d: Core, r: Record)
    requires Sized(c) && Sized(d) && RecordStored(c, r) && r.written == |r.payload|
    requires BytesAt(d, r.start, Le32(|r.payload|))
    requires forall q :: r.start + 4 <= q < r.End() ==> ByteAt(d, q) == ByteAt(c, q)
    ensures RecordStored(d, r.(published := true))
  {
    hide ByteAt, Le32, GoodSize, AlignUp;
  }

  lemma PublishKeepsGood(c: Core, i: nat)
    requires Good(c) && c.done <= i < |c.log| && c.log[i].written == |c.log[i].payload|
    ensures |c.log[i].payload| < TWO_32
    ensures Good(Publish(c, i))
  {
    var rec := c.log[i];
    GoodParts(c);
    assert RecordStored(c, rec);
    LiveWindow(c, i);
    PublishGeometry(c, i);
    var d := Publish(c, i);
    assert d.log == c.log[i := rec.(published := true)] && d.done == c.done;
    HeaderSets(c, rec.start, |rec.payload|);
    assert BytesAt(d, rec.start, Le32(|rec.payload|));
    hide Good, Tiled, Positioned, Ordered, RecordStored, AlignUp, Le32, GoodSize, Publish, BytesAt, PokeHeader;
    forall j | d.done <= j < |d.log|
      ensures RecordStored(d, d.log[j])
    {
      LiveWindow(c, j);
      if j != i {
        Apart(c, i, j);
      }
      forall q | c.log[j].start <= q < c.log[j].End() && (q < rec.start || rec.start + 4 <= q)
        ensures ByteAt(d, q) == ByteAt(c, q)
      {
        PublishByte(c, i, q);
      }
      if j == i {
        PublishRecord(c, d, rec);
      } else {
        RecordKept(c, d, c.log[j]);
      }
    }
  }

  lemma PublishByte(c: Core, i: nat, q: nat)
    requires Sized(c) && i < |c.log| && |c.log[i].payload| < TWO_32
    requires var p := c.log[i].start; (q < p || p + 4 <= q) && q < p + c.size && p + 4 <= q + c.size
    ensures ByteAt(Publish(c, i), q) == ByteAt(c, q)
  {
    hide Slot, GoodSize, PokeHeader, AlignUp;
    HeaderKeeps(c, c.log[i].start, |c.log[i].payload|, q);
  }

  /** What follows a record starts where it ends. */
  lemma NextAfter(c: Core, i: nat)
    requires Tiled(c) && i < |c.log|
    ensures c.log[i].End() <= c.writePos
    ensures c.log[i].End() == if i + 1 < |c.log| then c.log[i + 1].start else c.writePos
  {
    hide Total, Aligned;
  }

  lemma ConsumeGeometry(c: Core)
    requires Tiled(c) && Positioned(c) && Ordered(c) && c.done < |c.log| && c.log[c.done].published
    ensures var d := Consume(c, |c.log[c.done].payload|); Tiled(d) && Positioned(d) && Ordered(d)
  {
    var r := c.log[c.done];
    var d := Consume(c, |r.payload|);
    assert Ordered(d);
    assert Tiled(d) by {
      hide Total, Aligned, Ordered, Positioned;
    }
    NextAfter(c, c.done);
    AlignedSum(c.readPos, Total(|r.payload|));
    hide Total, Aligned, Tiled, Ordered;
  }

  lemma ConsumeKeepsGood(c: Core)
    requires Good(c) && c.done < |c.log| && c.log[c.done].published
    ensures Good(Consume(c, |c.log[c.done].payload|))
  {
    var d := Consume(c, |c.log[c.done].payload|);
    ConsumeGeometry(c);
    hide Total, ByteAt, BytesAt, Tiled, Positioned, Ordered;
    forall i | d.done <= i < |d.log|
      ensures RecordStored(d, d.log[i])
    {
      assert RecordStored(c, c.log[i]);
      RecordKept(c, d, c.log[i]);
    }
  }

  /** A live header is zero exactly while its record is unpublished, unless the payload is empty. */
  lemma HeaderTells(c: Core, i: nat)
    requires Good(c) && c.done <= i < |c.log|
    ensures PeekHeader(c, c.log[i].start) == (if c.log[i].published then |c.log[i].payload| else 0)
    ensures PeekHeader(c, c.log[i].start) == 0 <==> !c.log[i].published || c.log[i].payload == []
  {
    var r := c.log[i];
    assert RecordStored(c, r);
    hide AlignUp, ByteAt, Le32, PeekHeader, BytesAt;
    HeaderLoads(c, r.start, r.Header());
  }

  /** No byte of the ring belongs to two live records. */
  lemma LiveRecordsDisjoint(c: Core, i: nat, j: nat, p: nat, q: nat)
    requires Good(c) && c.done <= i < j < |c.log|
    requires c.log[i].start <= p < c.log[i].End() && c.log[j].start <= q < c.log[j].End()
    ensures Slot(p, c.size) != Slot(q, c.size)
  {
    GoodParts(c);
    hide Good, Stored, Ordered, Total, Slot;
    LiveWindow(c, i);
    LiveWindow(c, j);
    SlotsDistinct(p, q, c.size);
  }

  /** The payload the reader sees through the doubled mapping is the payload that was reserved for. */
  lemma PayloadReads(c: Core, o: nat)
    requires Good(c) && c.done < |c.log| && c.log[c.done].published && o < |c.log[c.done].payload|
    ensures HEADER_BYTES + o < c.size && PeekByte(c, c.readPos, HEADER_BYTES + o) == c.log[c.done].payload[o]
  {
    var r := c.log[c.done];
    assert RecordStored(c, r);
    LiveWindow(c, c.done);
    MirrorWraps(c.readPos, HEADER_BYTES + o, c.size);
    hide AlignUp, Slot, Le32, Mirror, Tiled;
    assert r.payload[..r.written][o] == r.payload[o];
    assert ByteAt(c, r.start + HEADER_BYTES + o) == r.payload[o];
  }
}
