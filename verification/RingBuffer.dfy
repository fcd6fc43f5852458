/**
 * The ring as an object over its byte array: the calls of one thread at a time, each against the layout it must keep.
 */
module RingBuffers {
  import opened Bits
  import opened RingLayout

  class RingBuffer {
    const size: nat
    const mem: array<Byte>
    var spinlock: bool
    var writePos: nat
    var readPos: nat
    var bytesWritten: nat
    var numWritesSucceeded: nat
    var numWritesOverflow: nat
    ghost var log: seq<Record> // every reservation, with the payload its writer is going to store
    ghost var done: nat        // how many of them the reader has stepped over

    ghost function View(): Core
      reads this, mem
    {
      Core(size, mem[..], writePos, readPos, log, done)
    }

    ghost predicate Consistent()
      reads this, mem
    {
      Good(View()) && numWritesSucceeded == |log| && bytesWritten == PayloadBytes(log)
    }

    ghost predicate Valid()
      reads this, mem
    {
      Consistent() && !spinlock
    }

    constructor (ringSize: nat)
      requires GoodSize(ringSize)
      ensures Valid() && fresh(mem) && size == ringSize && log == [] && done == 0
      ensures numWritesOverflow == 0
    {
      size := ringSize;
      mem := new Byte[ringSize];
      spinlock, writePos, readPos, bytesWritten, numWritesSucceeded, numWritesOverflow := false, 0, 0, 0, 0, 0;
      log, done := [], 0;
    }

    /** A store through the doubled mapping, `o` bytes past the slot of position `p`. */
    method Store(p: nat, o: nat, b: Byte)
      requires Sized(View()) && o < size
      modifies mem
      ensures View() == Poke(old(View()), p, o, b)
    {
      MirrorWraps(p, o, size);
      mem[Mirror(Slot(p, size) + o, size)] := b;
    }

    method StoreHeader(p: nat, v: U32)
      requires Sized(View())
      modifies mem
      ensures View() == PokeHeader(old(View()), p, v)
    {
      var bytes := Le32(v);
      ghost var start := View();
      assert PokeAll(start, p, 0, bytes) == PokeHeader(start, p, v);
      hide Poke, PokeHeader, Le32, GoodSize;
      for k := 0 to 4
        invariant Sized(View()) && 4 <= size && |bytes| == 4
        invariant PokeAll(View(), p, k, bytes[k..]) == PokeHeader(start, p, v)
      {
        assert bytes[k..][1..] == bytes[k + 1..];
        Store(p, k, bytes[k]);
      }
    }

    method LoadHeader(p: nat) returns (v: U32)
      requires Sized(View())
      ensures v == PeekHeader(View(), p)
    {
      MirrorWraps(p, 0, size);
      MirrorWraps(p, 1, size);
      MirrorWraps(p, 2, size);
      MirrorWraps(p, 3, size);
      var at := Slot(p, size);
      v := FromLe32([mem[Mirror(at, size)], mem[Mirror(at + 1, size)], mem[Mirror(at + 2, size)],
                     mem[Mirror(at + 3, size)]]);
    }

    /** The part of `begin_write` under the lock, once there is known to be room. */
    method Reserve(ghost payload: seq<Byte>, payloadSize: nat)
      requires Consistent() && |payload| == payloadSize && writePos - readPos + Total(payloadSize) <= size
      modifies `writePos, `bytesWritten, `numWritesSucceeded, `log, mem
      ensures Consistent() && View() == Advance(Clear(old(View())), payload)
    {
      hide Good, GoodSize, Clear, Advance, PokeHeader, PayloadBytes, BytesAt, Total;
      GoodIsSized(View());
      ghost var c := View();
      assert HEADER_BYTES <= Total(payloadSize);
      ClearKeepsGood(c);
      ClearIsStore(c);
      StoreHeader(writePos, 0);
      assert View() == Clear(c);
      AdvanceKeepsGood(View(), payload);
      AdvanceIs(View(), payload);
      PayloadBytesGrow(log, Record(writePos, payload, 0, false));
      log := log + [Record(writePos, payload, 0, false)];
      writePos := writePos + Total(payloadSize);
      bytesWritten := bytesWritten + payloadSize;
      numWritesSucceeded := numWritesSucceeded + 1;
    }

    /** Reserve room for `payload`; the result is where its record starts, or nothing when the ring has no room. */
    method BeginWrite(ghost payload: seq<Byte>, payloadSize: nat) returns (start: Option<nat>)
      requires Valid() && |payload| == payloadSize
      modifies this, mem
      ensures Valid()
      ensures start.None? <==> old(writePos) - old(readPos) + Total(payloadSize) > size
      ensures start.None? ==> View() == old(View())
      ensures numWritesOverflow == old(numWritesOverflow) + if start.None? && Total(payloadSize) <= size then 1 else 0
      ensures start.Some? ==> start.value == old(writePos) && View() == Advance(Clear(old(View())), payload)
    {
      hide Good, GoodSize, Clear, Advance, Total, PayloadBytes;
      GoodIsSized(View());
      var total := Total(payloadSize);
      if total > size {
        return None;
      }
      spinlock := true;
      var wr, rd := writePos, readPos;
      if wr - rd + total > size {
        numWritesOverflow := numWritesOverflow + 1;
        spinlock := false;
        return None;
      }
      Reserve(payload, payloadSize);
      spinlock := false;
      start := Some(wr);
    }

    /** Copy the payload in behind the header. */
    method CopyPayload(start: nat, bytes: seq<Byte>, ghost i: nat)
      requires Valid() && done <= i < |log| && log[i] == Record(start, bytes, 0, false)
      modifies `log, mem
      ensures Valid() && log == old(log)[i := Record(start, bytes, |bytes|, false)]
    {
      hide Good, Poke, Total, GoodSize, WriteNext;
      ghost var before := log;
      var n := 0;
      while n < |bytes|
        invariant Valid() && n <= |bytes|
        invariant log == before[i := Record(start, bytes, n, false)]
      {
        ghost var c := View();
        GoodIsSized(c);
        WriteNextKeepsGood(c, i);
        WriteNextIs(c, i);
        ghost var next := log[i := Record(start, bytes, n + 1, false)];
        SamePayloadBytes(log, next);
        Store(start, HEADER_BYTES + n, bytes[n]);
        log := next;
        n := n + 1;
      }
    }

    /** Publish the record by storing its size header. */
    method EndWrite(start: nat, payloadSize: nat, ghost i: nat)
      requires Valid() && done <= i < |log| && log[i].start == start && payloadSize == |log[i].payload|
      requires log[i].written == |log[i].payload|
      modifies `log, mem
      ensures Valid() && log == old(log)[i := old(log)[i].(published := true)]
      ensures |old(log)[i].payload| < TWO_32 && View() == Publish(old(View()), i)
    {
      hide Good, PokeHeader, GoodSize, Total, Publish;
      GoodIsSized(View());
      PublishKeepsGood(View(), i);
      PublishIs(View(), i);
      SamePayloadBytes(log, log[i := log[i].(published := true)]);
      StoreHeader(start, payloadSize);
      log := log[i := log[i].(published := true)];
    }

    /** Copy a published payload out of the doubled mapping. */
    method ReadPayload(rd: nat, len: nat) returns (got: seq<Byte>)
      requires Good(View()) && done < |log| && log[done].published && rd == readPos && len == |log[done].payload|
      ensures got == log[done].payload
    {
      hide Good, GoodSize, Slot, Mirror;
      ghost var payload := log[done].payload;
      got := [];
      while |got| < len
        invariant |got| <= len && got == payload[..|got|]
      {
        GoodIsSized(View());
        PayloadReads(View(), |got|);
        MirrorWraps(rd, HEADER_BYTES + |got|, size);
        got := got + [mem[Mirror(Slot(rd, size) + HEADER_BYTES + |got|, size)]];
      }
      assert payload[..|got|] == payload;
    }

    /** The oldest record's payload, once it is published; an empty one looks unpublished for ever. */
    method BeginRead() returns (r: Option<seq<Byte>>)
      requires Valid()
      ensures r.Some? <==> done < |log| && log[done].published && log[done].payload != []
      ensures r.Some? ==> r.value == log[done].payload
    {
      var rd, wr := readPos, writePos;
      assert (rd < wr <==> done < |log|) && (done < |log| ==> rd == log[done].start) by {
        GoodParts(View());
        ReaderBehind(View());
      }
      hide Good, GoodSize, PeekHeader;
      if rd >= wr {
        return None;
      }
      GoodIsSized(View());
      HeaderTells(View(), done);
      var len := LoadHeader(rd);
      if len == 0 {
        return None;
      }
      var got := ReadPayload(rd, len);
      r := Some(got);
    }

    /** Step over the record that `BeginRead` returned. */
    method EndRead(payloadLen: nat)
      requires Valid() && done < |log| && log[done].published && payloadLen == |log[done].payload|
      modifies `readPos, `done
      ensures Valid() && View() == Consume(old(View()), payloadLen)
    {
      hide Good, Total;
      ConsumeKeepsGood(View());
      readPos := readPos + Total(payloadLen);
      done := done + 1;
    }
  }

  lemma GoodIsSized(c: Core)
    requires Good(c)
    ensures Sized(c) && c.readPos <= c.writePos
  {
  }

  lemma ClearIsStore(c: Core)
    requires Sized(c)
    ensures Clear(c) == PokeHeader(c, c.writePos, 0)
  {
  }

  lemma AdvanceIs(c: Core, payload: seq<Byte>)
    ensures Advance(c, payload)
      == c.(writePos := c.writePos + Total(|payload|), log := c.log + [Record(c.writePos, payload, 0, false)])
  {
  }

  lemma WriteNextIs(c: Core, i: nat)
    requires Sized(c) && i < |c.log| && c.log[i].written < |c.log[i].payload| && Total(|c.log[i].payload|) <= c.size
    ensures var r := c.log[i];
      WriteNext(c, i) == Poke(c, r.start, HEADER_BYTES + r.written, r.payload[r.written]).(
        log := c.log[i := r.(written := r.written + 1)])
  {
  }

  lemma PublishIs(c: Core, i: nat)
    requires Sized(c) && i < |c.log| && |c.log[i].payload| < TWO_32
    ensures Publish(c, i)
      == PokeHeader(c, c.log[i].start, |c.log[i].payload|).(log := c.log[i := c.log[i].(published := true)])
  {
  }

  /** The reader is behind the writers exactly while a reservation is unread. */
  lemma ReaderBehind(c: Core)
    requires Tiled(c) && Positioned(c)
    ensures c.readPos < c.writePos <==> c.done < |c.log|
  {
    if c.done < |c.log| {
      LiveWindow(c, c.done);
    }
  }

  /** The byte count the ring reports: what every granted reservation asked for. */
  function PayloadBytes(log: seq<Record>): nat {
    if log == [] then 0 else PayloadBytes(log[..|log| - 1]) + |log[|log| - 1].payload|
  }

  lemma PayloadBytesGrow(log: seq<Record>, r: Record)
    ensures PayloadBytes(log + [r]) == PayloadBytes(log) + |r.payload|
  {
    assert (log + [r])[..|log|] == log;
  }

  lemma {:induction false} SamePayloadBytes(a: seq<Record>, b: seq<Record>)
    requires |a| == |b| && forall i :: 0 <= i < |a| ==> a[i].payload == b[i].payload
    ensures PayloadBytes(a) == PayloadBytes(b)
  {
    if a == [] {
    } else {
      SamePayloadBytes(a[..|a| - 1], b[..|b| - 1]);
    }
  }

  /** What both senders do with a finished payload: reserve, fill, publish; or give up when there is no room. */
  method WriteRecord(ring: RingBuffer, payload: seq<Byte>) returns (sent: bool)
    requires ring.Valid()
    modifies ring, ring.mem
    ensures ring.Valid() && ring.done == old(ring.done)
    ensures sent <==> old(ring.writePos - ring.readPos) + Total(|payload|) <= ring.size
    ensures ring.log == old(ring.log) + if sent then [Record(old(ring.writePos), payload, |payload|, true)] else []
  {
    hide Good, GoodSize, Total, Clear, Advance, Publish, PayloadBytes;
    ghost var i := |ring.log|;
    ghost var before := ring.View();
    GoodIsSized(before);
    DoneInLog(before);
    var start := ring.BeginWrite(payload, |payload|);
    if start.None? {
      assert ring.log == before.log && ring.done == before.done;
      return false;
    }
    ReservedLog(before, ring.View(), payload);
    ring.CopyPayload(start.value, payload, i);
    ring.EndWrite(start.value, |payload|, i);
    sent := true;
  }

  lemma DoneInLog(c: Core)
    requires Good(c)
    ensures c.done <= |c.log|
  {
  }

  lemma ReservedLog(before: Core, after: Core, payload: seq<Byte>)
    requires Sized(before) && after == Advance(Clear(before), payload)
    ensures after.log == before.log + [Record(before.writePos, payload, 0, false)] && after.done == before.done
  {
    ClearIsStore(before);
    AdvanceIs(Clear(before), payload);
  }

  /**
   * One payload through an idle ring: what goes in comes out, and the ring is idle again. A payload larger than the
   * ring is refused, and an empty one is accepted but never comes out.
   */
  method RoundTrip(ring: RingBuffer, payload: seq<Byte>) returns (got: Option<seq<Byte>>)
    requires ring.Valid() && ring.done == |ring.log|
    modifies ring, ring.mem
    ensures ring.Valid()
    ensures got == if Total(|payload|) <= ring.size && payload != [] then Some(payload) else None
    ensures |ring.log| - ring.done == if payload == [] then 1 else 0
  {
    ghost var i := |ring.log|;
    assert payload == [] ==> Total(|payload|) <= ring.size;
    var start := ring.BeginWrite(payload, |payload|);
    if start.None? {
      return None;
    }
    ring.CopyPayload(start.value, payload, i);
    ring.EndWrite(start.value, |payload|, i);
    got := ring.BeginRead();
    if got.Some? {
      ring.EndRead(|payload|);
    }
  }
}
