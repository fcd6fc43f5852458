/**
 * Every interleaving of any number of writers and one reader on the ring, one atomic memory operation a step:
 * the ring is a first-in first-out queue of the reserved payloads.
 */
module RingProtocol {
  import opened Bits
  import opened RingLayout

  type Tid = nat

  /** Where a writer stands in `begin_write`, the payload copy and `end_write`. */
  datatype Writer =
    | Idle
    | Trying(payload: seq<Byte>)                    // about to load the spinlock
    | SawFree(payload: seq<Byte>)                   // loaded zero, about to swap
    | Locked(payload: seq<Byte>)                    // about to load write_pos
    | LoadedWrite(payload: seq<Byte>, wr: nat)      // about to load read_pos
    | LoadedRead(payload: seq<Byte>, wr: nat, rd: nat)
    | Cleared(payload: seq<Byte>, wr: nat)          // header zeroed, about to store write_pos
    | Reserved(record: nat)                         // write_pos stored, about to unlock
    | Full                                          // overflow, about to unlock and return null
    | Filling(record: nat)                          // copying the payload, then publishing
  {
    predicate HoldsLock() {
      Locked? || LoadedWrite? || LoadedRead? || Cleared? || Reserved? || Full?
    }

    predicate Owns(i: int) {
      (Reserved? || Filling?) && record == i
    }
  }

  /** Where the reader stands between `begin_read` and `end_read`. */
  datatype Reader =
    | Waiting
    | LoadedRd(rd: nat)
    | LoadedWr(rd: nat, wr: nat)
    | Reading(rd: nat, len: nat, got: seq<Byte>)

  datatype State = State(
    core: Core,
    spinlock: bool,
    writers: map<Tid, Writer>,
    reader: Reader,
    delivered: seq<seq<Byte>>)

  ghost predicate Init(s: State) {
    && Sized(s.core)
    && s.core.writePos == 0 && s.core.readPos == 0 && s.core.log == [] && s.core.done == 0
    && !s.spinlock && s.reader == Waiting && s.delivered == []
    && forall t :: t in s.writers ==> s.writers[t] == Idle
  }

  // ---- Writer steps ----

  ghost predicate StepWriter(s: State, s': State, t: Tid) {
    && t in s.writers
    && match s.writers[t]
       case Idle => exists payload :: Begin(s, s', t, payload)
       case Trying(p) => s' == Go(s, t, if s.spinlock then Trying(p) else SawFree(p))
       case SawFree(p) => s' == Go(s, t, if s.spinlock then Trying(p) else Locked(p)).(spinlock := true)
       case Locked(p) => s' == Go(s, t, LoadedWrite(p, s.core.writePos))
       case LoadedWrite(p, wr) => s' == Go(s, t, LoadedRead(p, wr, s.core.readPos))
       case LoadedRead(p, wr, rd) =>
         Sized(s.core) && s' == if wr - rd + Total(|p|) > s.core.size then Go(s, t, Full)
                                else Go(s, t, Cleared(p, wr)).(core := PokeHeader(s.core, wr, 0))
       case Cleared(p, wr) =>
         s' == Go(s, t, Reserved(|s.core.log|)).(core := s.core.(
           writePos := wr + Total(|p|), log := s.core.log + [Record(wr, p, 0, false)]))
       case Reserved(i) => s' == Go(s, t, Filling(i)).(spinlock := false)
       case Full => s' == Go(s, t, Idle).(spinlock := false)
       case Filling(i) => Fill(s, s', t, i)
  }

  /** `begin_write` is entered; a payload that can never fit is refused before locking. */
  ghost predicate Begin(s: State, s': State, t: Tid, payload: seq<Byte>)
    requires t in s.writers
  {
    s' == Go(s, t, if Total(|payload|) > s.core.size then Idle else Trying(payload))
  }

  function Go(s: State, t: Tid, w: Writer): State {
    s.(writers := s.writers[t := w])
  }

  /** Copy one more byte, or publish once all are there. */
  ghost predicate Fill(s: State, s': State, t: Tid, i: nat) {
    && Sized(s.core) && i < |s.core.log|
    && |s.core.log[i].payload| < TWO_32 && Total(|s.core.log[i].payload|) <= s.core.size
    && s' == Go(s, t, if Filled(s.core, i).log[i].published then Idle else Filling(i)).(core := Filled(s.core, i))
  }

  /** The core after the owner of record `i` has stored its next byte, or its header once all bytes are there. */
  function Filled(c: Core, i: nat): (d: Core)
    requires Sized(c) && i < |c.log| && |c.log[i].payload| < TWO_32 && Total(|c.log[i].payload|) <= c.size
    ensures |d.log| == |c.log| && Sized(d)
  {
    if c.log[i].written < |c.log[i].payload| then WriteNext(c, i) else Publish(c, i)
  }

  // ---- Reader steps ----

  ghost predicate StepReader(s: State, s': State) {
    Sized(s.core) &&
    match s.reader
    case Waiting => s' == s.(reader := LoadedRd(s.core.readPos))
    case LoadedRd(rd) => s' == s.(reader := LoadedWr(rd, s.core.writePos))
    case LoadedWr(rd, wr) =>
      s' == s.(reader := if rd >= wr || PeekHeader(s.core, rd) == 0 then Waiting
                         else Reading(rd, PeekHeader(s.core, rd), []))
    case Reading(rd, len, got) =>
      if |got| < len then
        HEADER_BYTES + |got| < s.core.size
        && s' == s.(reader := Reading(rd, len, got + [PeekByte(s.core, rd, HEADER_BYTES + |got|)]))
      else
        s' == s.(reader := Waiting, core := s.core.(readPos := rd + Total(len), done := s.core.done + 1),
                 delivered := s.delivered + [got])
  }

  ghost predicate Next(s: State, s': State) {
    StepReader(s, s') || exists t :: StepWriter(s, s', t)
  }

  // ---- The invariant ----

  ghost predicate WriterOk(s: State, w: Writer) {
    match w
    case Idle => true
    case Trying(p) => Payload(s, p)
    case SawFree(p) => Payload(s, p)
    case Locked(p) => Payload(s, p)
    case LoadedWrite(p, wr) => Payload(s, p) && wr == s.core.writePos
    case LoadedRead(p, wr, rd) => Payload(s, p) && wr == s.core.writePos && rd <= s.core.readPos
    case Cleared(p, wr) =>
      && Payload(s, p) && wr == s.core.writePos
      && wr - s.core.readPos + Total(|p|) <= s.core.size
      && Sized(s.core) && BytesAt(s.core, wr, Le32(0))
    case Reserved(i) => Unpublished(s, i)
    case Full => true
    case Filling(i) => Unpublished(s, i)
  }

  predicate Payload(s: State, p: seq<Byte>) {
    Total(|p|) <= s.core.size
  }

  predicate Unpublished(s: State, i: nat) {
    i < |s.core.log| && !s.core.log[i].published
  }

  ghost predicate ReaderOk(s: State) {
    match s.reader
    case Waiting => true
    case LoadedRd(rd) => rd == s.core.readPos
    case LoadedWr(rd, wr) => rd == s.core.readPos && wr <= s.core.writePos
    case Reading(rd, len, got) =>
      && rd == s.core.readPos && s.core.done < |s.core.log|
      && var r := s.core.log[s.core.done];
      && r.published && 0 < len == |r.payload| && |got| <= len && got == r.payload[..|got|]
  }

  /** At most one writer is between `lock` and `unlock`, and the lock word says so. */
  ghost predicate LockOk(s: State) {
    && (forall t, u :: t in s.writers && u in s.writers && s.writers[t].HoldsLock() && s.writers[u].HoldsLock() ==>
        t == u)
    && (s.spinlock <==> exists t :: t in s.writers && s.writers[t].HoldsLock())
  }

  /** An unpublished record has exactly one writer responsible for it. */
  ghost predicate OwnersOk(s: State) {
    && (forall t, u, i :: t in s.writers && u in s.writers && s.writers[t].Owns(i) && s.writers[u].Owns(i) ==> t == u)
    && (forall i :: 0 <= i < |s.core.log| && !s.core.log[i].published ==>
          exists t :: t in s.writers && s.writers[t].Owns(i))
  }

  /** The reader has returned exactly the payloads of the consumed records, in reservation order. */
  ghost predicate DeliveredOk(s: State) {
    && |s.delivered| == s.core.done <= |s.core.log|
    && forall i :: 0 <= i < |s.delivered| ==> s.delivered[i] == s.core.log[i].payload
  }

  ghost predicate Inv(s: State) {
    && Good(s.core)
    && (forall t :: t in s.writers ==> WriterOk(s, s.writers[t]))
    && ReaderOk(s) && LockOk(s) && OwnersOk(s) && DeliveredOk(s)
  }

  lemma InitInv(s: State)
    requires Init(s)
    ensures Inv(s)
  {
  }

  // ---- The lock and the owners across one writer's step ----

  ghost predicate OnlyMoves(s: State, s': State, t: Tid) {
    t in s.writers && t in s'.writers && s'.writers == s.writers[t := s'.writers[t]]
  }

  lemma LockStep(s: State, s': State, t: Tid)
    requires LockOk(s) && OnlyMoves(s, s', t)
    requires s'.writers[t].HoldsLock() ==> s.writers[t].HoldsLock() || !s.spinlock
    requires s'.spinlock == ((s.spinlock && !s.writers[t].HoldsLock()) || s'.writers[t].HoldsLock())
    ensures LockOk(s')
  {
    forall u, v | u in s'.writers && v in s'.writers && s'.writers[u].HoldsLock() && s'.writers[v].HoldsLock()
      ensures u == v
    {
      assert u != t ==> s.writers[u].HoldsLock();
      assert v != t ==> s.writers[v].HoldsLock();
    }
    if s'.spinlock && !s'.writers[t].HoldsLock() {
      var u :| u in s.writers && s.writers[u].HoldsLock();
      assert u in s'.writers && s'.writers[u].HoldsLock();
    }
  }

  lemma OwnersStep(s: State, s': State, t: Tid)
    requires OwnersOk(s) && OnlyMoves(s, s', t)
    requires |s.core.log| == |s'.core.log|
    requires forall i :: 0 <= i < |s.core.log| && !s'.core.log[i].published ==> !s.core.log[i].published
    requires forall i :: s'.writers[t].Owns(i) ==> s.writers[t].Owns(i)
    requires forall i :: 0 <= i < |s.core.log| && s.writers[t].Owns(i) ==>
        s'.writers[t].Owns(i) || s'.core.log[i].published
    ensures OwnersOk(s')
  {
    forall i | 0 <= i < |s'.core.log| && !s'.core.log[i].published
      ensures exists u :: u in s'.writers && s'.writers[u].Owns(i)
    {
      var u :| u in s.writers && s.writers[u].Owns(i);
      assert u in s'.writers && s'.writers[u].Owns(i);
    }
    forall u, v, i | u in s'.writers && v in s'.writers && s'.writers[u].Owns(i) && s'.writers[v].Owns(i)
      ensures u == v
    {
      assert s.writers[u].Owns(i) && s.writers[v].Owns(i);
    }
  }

  predicate Quiet(w: Writer) {
    w.Idle? || w.Trying? || w.SawFree? || w.Locked? || w.LoadedWrite? || w.Full? || w.Reserved?
  }

  /** Steps on the lock word and on the writer's own registers leave the ring itself alone. */
  lemma QuietStepInv(s: State, s': State, t: Tid)
    requires Inv(s) && StepWriter(s, s', t) && Quiet(s.writers[t])
    ensures Inv(s')
  {
    hide Good, Total, BytesAt, GoodSize;
    assert s'.core == s.core && s'.reader == s.reader && s'.delivered == s.delivered && OnlyMoves(s, s', t);
    assert s.writers[t].HoldsLock() ==> s.spinlock;
    LockStep(s, s', t);
    OwnersStep(s, s', t);
    assert WriterOk(s, s.writers[t]);
    hide LockOk, OwnersOk;
    forall u | u in s'.writers
      ensures WriterOk(s', s'.writers[u])
    {
      assert u != t ==> WriterOk(s, s.writers[u]);
    }
  }

  /** What a step by somebody else must leave standing for a writer in state `w`. */
  lemma WriterKept(s: State, s': State, w: Writer)
    requires WriterOk(s, w)
    requires s'.core.size == s.core.size && s.core.readPos <= s'.core.readPos && |s.core.log| <= |s'.core.log|
    requires forall i :: 0 <= i < |s.core.log| && w.Owns(i) ==> !s'.core.log[i].published
    requires w.HoldsLock() ==> s'.core.writePos == s.core.writePos
    requires w.Cleared? ==> Sized(s'.core) && BytesAt(s'.core, w.wr, Le32(0))
    ensures WriterOk(s', w)
  {
    hide BytesAt, Total, GoodSize;
  }

  lemma OnlyHolder(s: State, t: Tid, u: Tid)
    requires LockOk(s) && t in s.writers && u in s.writers && s.writers[t].HoldsLock() && s.writers[u].HoldsLock()
    ensures t == u
  {
  }

  lemma OnlyOwner(s: State, t: Tid, u: Tid, i: int)
    requires OwnersOk(s) && t in s.writers && u in s.writers && s.writers[t].Owns(i) && s.writers[u].Owns(i)
    ensures t == u
  {
  }

  /** A writer's step touches the shared ring only as its place in the protocol allows. */
  ghost predicate Respects(s: State, s': State, t: Tid) {
    && OnlyMoves(s, s', t)
    && s'.reader == s.reader && s'.delivered == s.delivered
    && s'.core.size == s.core.size && s'.core.readPos == s.core.readPos && s'.core.done == s.core.done
    && |s.core.log| <= |s'.core.log|
    && (forall i :: 0 <= i < |s.core.log| ==>
          && s'.core.log[i].payload == s.core.log[i].payload
          && (s'.core.log[i].published != s.core.log[i].published ==> s.writers[t].Owns(i) && s'.core.log[i].published))
    && (s'.core.writePos != s.core.writePos ==> s.writers[t].HoldsLock())
    && Good(s'.core)
    && forall u :: u in s.writers && u != t && s.writers[u].Cleared? ==>
         s.writers[t].HoldsLock() || BytesAt(s'.core, s.writers[u].wr, Le32(0))
  }

  lemma OthersOk(s: State, s': State, t: Tid, u: Tid)
    requires Inv(s) && Respects(s, s', t) && u in s.writers && u != t
    ensures u in s'.writers && s'.writers[u] == s.writers[u] && WriterOk(s', s'.writers[u])
  {
    var w := s.writers[u];
    assert WriterOk(s, w) && Sized(s'.core);
    OwnedUnpublished(s, w);
    hide Good, WriterOk, BytesAt, GoodSize;
    if w.HoldsLock() && s.writers[t].HoldsLock() {
      OnlyHolder(s, t, u);
    }
    forall i | 0 <= i < |s.core.log| && w.Owns(i)
      ensures !s'.core.log[i].published
    {
      if s.writers[t].Owns(i) {
        OnlyOwner(s, t, u, i);
      }
    }
    WriterKept(s, s', w);
  }

  lemma ReaderKept(s: State, s': State, t: Tid)
    requires Inv(s) && Respects(s, s', t)
    requires s'.core.writePos >= s.core.writePos
    ensures ReaderOk(s') && DeliveredOk(s')
  {
    assert s.reader.Reading? ==> s.core.log[s.core.done].published && !s.writers[t].Owns(s.core.done) by {
      assert WriterOk(s, s.writers[t]);
      OwnedUnpublished(s, s.writers[t]);
    }
    hide Good, WriterOk, BytesAt, LockOk, OwnersOk;
  }

  lemma WriterStepAssembles(s: State, s': State, t: Tid)
    requires Inv(s) && Respects(s, s', t) && s'.core.writePos >= s.core.writePos
    requires WriterOk(s', s'.writers[t]) && LockOk(s') && OwnersOk(s')
    ensures Inv(s')
  {
    ReaderKept(s, s', t);
    assert Good(s'.core) && OnlyMoves(s, s', t);
    hide Good, WriterOk, LockOk, OwnersOk, ReaderOk, DeliveredOk, Respects;
    forall u | u in s'.writers
      ensures WriterOk(s', s'.writers[u])
    {
      if u != t {
        OthersOk(s, s', t, u);
      }
    }
  }

  lemma OwnedUnpublished(s: State, w: Writer)
    requires WriterOk(s, w)
    ensures forall i :: w.Owns(i) ==> i < |s.core.log| && !s.core.log[i].published
  {
    hide BytesAt, Total, GoodSize;
  }

  lemma InvParts(s: State)
    requires Inv(s)
    ensures Good(s.core) && LockOk(s) && OwnersOk(s)
  {
  }

  // ---- Reserving ----

  /** The writer either finds no room or zeroes the header of the record to come. */
  lemma ClearCase(s: State, s': State, t: Tid)
    requires Inv(s) && StepWriter(s, s', t) && s.writers[t].LoadedRead?
    ensures var p := s.writers[t].payload;
      && t in s.writers && Good(s.core) && Sized(s.core) && Payload(s, p)
      && (s' == Go(s, t, Full)
          || (s.core.writePos - s.core.readPos + Total(|p|) <= s.core.size
              && s' == Go(s, t, Cleared(p, s.core.writePos)).(core := Clear(s.core))))
  {
    assert WriterOk(s, s.writers[t]);
    hide Good, PokeHeader, Total, GoodSize, LockOk, OwnersOk, ReaderOk, DeliveredOk;
  }

  lemma RecordHoldsHeader(n: nat)
    ensures HEADER_BYTES <= Total(n)
  {
  }

  lemma ClearFrame(c: Core)
    requires Sized(c)
    ensures Clear(c) == c.(mem := Clear(c).mem) && Sized(Clear(c))
  {
  }

  lemma ClearEffect(s: State, s': State, t: Tid)
    requires Inv(s) && StepWriter(s, s', t) && s.writers[t].LoadedRead?
    ensures Respects(s, s', t) && WriterOk(s', s'.writers[t]) && s'.core.writePos == s.core.writePos
    ensures |s'.core.log| == |s.core.log| && s'.spinlock == s.spinlock && s'.writers[t].HoldsLock()
    ensures !s'.writers[t].Reserved? && !s'.writers[t].Filling?
  {
    hide Inv, StepWriter, Good, BytesAt, Total, GoodSize, Clear, Sized;
    ClearCase(s, s', t);
    if s' != Go(s, t, Full) {
      var p := s.writers[t].payload;
      RecordHoldsHeader(|p|);
      ClearKeepsGood(s.core);
      ClearFrame(s.core);
    }
  }

  lemma ClearStepInv(s: State, s': State, t: Tid)
    requires Inv(s) && StepWriter(s, s', t) && s.writers[t].LoadedRead?
    ensures Inv(s')
  {
    hide Good, WriterOk, StepWriter, BytesAt, Inv;
    ClearEffect(s, s', t);
    InvParts(s);
    LockStep(s, s', t);
    OwnersStep(s, s', t);
    WriterStepAssembles(s, s', t);
  }

  lemma ReserveEffect(s: State, s': State, t: Tid)
    requires Inv(s) && StepWriter(s, s', t) && s.writers[t].Cleared?
    ensures Respects(s, s', t) && WriterOk(s', s'.writers[t]) && s'.core.writePos >= s.core.writePos
    ensures s'.core.log[..|s.core.log|] == s.core.log && |s'.core.log| == |s.core.log| + 1
    ensures s'.writers[t] == Reserved(|s.core.log|) && s'.spinlock == s.spinlock
  {
    var Cleared(p, wr) := s.writers[t];
    assert WriterOk(s, s.writers[t]);
    AdvanceKeepsGood(s.core, p);
    assert s'.core == Advance(s.core, p);
    hide Good, BytesAt, Total, GoodSize, LockOk, OwnersOk;
  }

  lemma ReserveStepInv(s: State, s': State, t: Tid)
    requires Inv(s) && StepWriter(s, s', t) && s.writers[t].Cleared?
    ensures Inv(s')
  {
    ReserveEffect(s, s', t);
    assert LockOk(s) && OwnersOk(s) && s.spinlock;
    var n := |s.core.log|;
    forall i | 0 <= i < n
      ensures s'.core.log[i] == s.core.log[i]
    {
      assert s'.core.log[..n][i] == s.core.log[i];
    }
    forall u, i | u in s.writers && s.writers[u].Owns(i)
      ensures i < n
    {
      assert WriterOk(s, s.writers[u]);
      OwnedUnpublished(s, s.writers[u]);
    }
    hide Good, WriterOk, StepWriter, BytesAt;
    LockStep(s, s', t);
    NewOwner(s, s', t, n);
    WriterStepAssembles(s, s', t);
  }

  lemma NewOwner(s: State, s': State, t: Tid, n: nat)
    requires OwnersOk(s) && OnlyMoves(s, s', t) && n == |s.core.log| && |s'.core.log| == n + 1
    requires forall i :: 0 <= i < n ==> s'.core.log[i] == s.core.log[i]
    requires s'.writers[t] == Reserved(n) && s.writers[t].Cleared?
    requires forall u, i :: u in s.writers && s.writers[u].Owns(i) ==> i < n
    ensures OwnersOk(s')
  {
    forall i | 0 <= i < |s'.core.log| && !s'.core.log[i].published
      ensures exists u :: u in s'.writers && s'.writers[u].Owns(i)
    {
      if i < n {
        var u :| u in s.writers && s.writers[u].Owns(i);
        assert u in s'.writers && s'.writers[u].Owns(i);
      } else {
        assert s'.writers[t].Owns(n);
      }
    }
  }

  // ---- Filling and publishing ----

  lemma FilledKeepsGood(c: Core, i: nat)
    requires Good(c) && c.done <= i < |c.log| && !c.log[i].published
    ensures |c.log[i].payload| < TWO_32 && Total(|c.log[i].payload|) <= c.size
    ensures Good(Filled(c, i))
  {
    assert RecordStored(c, c.log[i]);
    LiveWindow(c, i);
    if c.log[i].written < |c.log[i].payload| {
      WriteNextKeepsGood(c, i);
    } else {
      PublishKeepsGood(c, i);
    }
  }

  lemma FilledFrame(c: Core, i: nat)
    requires Sized(c) && i < |c.log| && |c.log[i].payload| < TWO_32 && Total(|c.log[i].payload|) <= c.size
    requires !c.log[i].published
    ensures var d := Filled(c, i);
      && |d.log| == |c.log| && d == c.(mem := d.mem, log := c.log[i := d.log[i]])
      && d.log[i].payload == c.log[i].payload
      && (d.log[i].published <==> c.log[i].written >= |c.log[i].payload|)
  {
    hide Poke, PokeHeader, Total, GoodSize;
  }

  lemma FillCase(s: State, s': State, t: Tid)
    requires Inv(s) && StepWriter(s, s', t) && s.writers[t].Filling?
    ensures t in s.writers
    ensures var i := s.writers[t].record;
      Fill(s, s', t, i) && Good(s.core) && s.core.done <= i < |s.core.log| && !s.core.log[i].published
  {
    assert WriterOk(s, s.writers[t]);
    hide Fill, Sized, Tiled, Stored, LockOk, OwnersOk;
  }

  lemma FillEffect(s: State, s': State, t: Tid)
    requires t in s.writers && s.writers[t].Filling?
    requires var i := s.writers[t].record;
      Fill(s, s', t, i) && Good(s.core) && s.core.done <= i < |s.core.log| && !s.core.log[i].published
    ensures Good(s'.core) && OnlyMoves(s, s', t) && WriterOk(s', s'.writers[t])
    ensures s'.reader == s.reader && s'.delivered == s.delivered && s'.spinlock == s.spinlock
    ensures var i := s.writers[t].record;
      && |s.core.log| == |s'.core.log|
      && s'.core == s.core.(mem := s'.core.mem, log := s.core.log[i := s'.core.log[i]])
      && s'.core.log[i].payload == s.core.log[i].payload
      && s'.writers[t] == (if s'.core.log[i].published then Idle else Filling(i))
  {
    var i := s.writers[t].record;
    FilledKeepsGood(s.core, i);
    FilledFrame(s.core, i);
    hide Good, Total, GoodSize, Filled;
  }

  lemma FillRespects(s: State, s': State, t: Tid)
    requires Inv(s) && StepWriter(s, s', t) && s.writers[t].Filling?
    ensures Respects(s, s', t)
  {
    FillCase(s, s', t);
    FillEffect(s, s', t);
    hide Good, StepWriter, BytesAt, Fill, LockOk, OwnersOk, ReaderOk, DeliveredOk;
    forall u | u in s.writers && u != t && s.writers[u].Cleared?
      ensures BytesAt(s'.core, s.writers[u].wr, Le32(0))
    {
      assert WriterOk(s, s.writers[u]);
      ClearedKept(s, s', t, u);
    }
  }

  lemma FillStepInv(s: State, s': State, t: Tid)
    requires Inv(s) && StepWriter(s, s', t) && s.writers[t].Filling?
    ensures Inv(s')
  {
    hide Good, WriterOk, StepWriter, BytesAt, Respects, Inv, Fill;
    FillCase(s, s', t);
    FillEffect(s, s', t);
    FillRespects(s, s', t);
    InvParts(s);
    LockStep(s, s', t);
    OwnersStep(s, s', t);
    WriterStepAssembles(s, s', t);
  }

  /** Filling or publishing one record never touches the header another writer has just zeroed. */
  lemma ClearedKept(s: State, s': State, t: Tid, u: Tid)
    requires t in s.writers && s.writers[t].Filling?
    requires var i := s.writers[t].record;
      Fill(s, s', t, i) && Good(s.core) && s.core.done <= i < |s.core.log| && !s.core.log[i].published
    requires u in s.writers && s.writers[u].Cleared? && WriterOk(s, s.writers[u]) && Sized(s'.core)
    ensures BytesAt(s'.core, s.writers[u].wr, Le32(0))
  {
    var i := s.writers[t].record;
    var wr := s.writers[u].wr;
    LiveWindow(s.core, i);
    FilledBytes(s.core, i, wr);
    assert BytesAt(s.core, wr, Le32(0));
    hide Good, Total, WriterOk, ByteAt, GoodSize, Filled;
  }

  lemma FilledBytes(c: Core, i: nat, wr: nat)
    requires Sized(c) && i < |c.log| && |c.log[i].payload| < TWO_32 && Total(|c.log[i].payload|) <= c.size
    requires c.log[i].End() <= wr && wr + HEADER_BYTES <= c.log[i].start + c.size
    ensures forall q :: wr <= q < wr + 4 ==> ByteAt(Filled(c, i), q) == ByteAt(c, q)
  {
    hide Total, ByteAt, WriteNext, Publish;
    forall q | wr <= q < wr + 4
      ensures ByteAt(Filled(c, i), q) == ByteAt(c, q)
    {
      if c.log[i].written < |c.log[i].payload| {
        WriteNextByte(c, i, q);
      } else {
        PublishByte(c, i, q);
      }
    }
  }

  // ---- Reading ----

  /** The reader is about to move its position. */
  predicate IsDone(r: Reader) {
    r.Reading? && |r.got| == r.len
  }

  lemma ReaderLooks(s: State, s': State)
    requires Good(s.core) && ReaderOk(s) && StepReader(s, s') && !s.reader.Reading?
    ensures s' == s.(reader := s'.reader) && ReaderOk(s')
  {
    hide Total, GoodSize, PeekByte, PeekHeader, Stored;
    if s.reader.LoadedWr? && s.reader.rd < s.reader.wr {
      assert s.core.done < |s.core.log|;
      HeaderTells(s.core, s.core.done);
    }
  }

  lemma ReaderCopies(s: State, s': State)
    requires Good(s.core) && ReaderOk(s) && StepReader(s, s') && s.reader.Reading? && !IsDone(s.reader)
    ensures s' == s.(reader := s'.reader) && ReaderOk(s')
  {
    hide Good, Total, GoodSize, PeekByte, PeekHeader;
    var got, payload := s.reader.got, s.core.log[s.core.done].payload;
    PayloadReads(s.core, |got|);
    assert payload[..|got| + 1] == payload[..|got|] + [payload[|got|]];
  }

  lemma ReaderStepInv(s: State, s': State)
    requires Inv(s) && StepReader(s, s')
    ensures Inv(s')
  {
    hide Inv, Good, StepReader, ReaderOk, LockOk, OwnersOk, DeliveredOk, WriterOk, Sized;
    InvParts(s);
    WritersAreOk(s);
    if IsDone(s.reader) {
      ConsumeStepInv(s, s');
    } else {
      if s.reader.Reading? {
        ReaderCopies(s, s');
      } else {
        ReaderLooks(s, s');
      }
      ReaderOnly(s, s');
    }
  }

  lemma ReaderOnly(s: State, s': State)
    requires Inv(s) && s' == s.(reader := s'.reader) && ReaderOk(s')
    ensures Inv(s')
  {
    hide Good, BytesAt, Total, GoodSize;
    forall t | t in s'.writers
      ensures WriterOk(s', s'.writers[t])
    {
      assert WriterOk(s, s.writers[t]);
    }
  }

  lemma ConsumeEffect(s: State, s': State)
    requires Sized(s.core) && StepReader(s, s') && s.reader.Reading? && |s.reader.got| == s.reader.len
    requires Good(s.core) && ReaderOk(s) && DeliveredOk(s)
    ensures Good(s'.core) && DeliveredOk(s') && s'.writers == s.writers && s'.spinlock == s.spinlock &&
        s'.reader == Waiting
    ensures s'.core == s.core.(readPos := s'.core.readPos, done := s'.core.done) && s.core.readPos <= s'.core.readPos
  {
    var r := s.core.log[s.core.done];
    ConsumeKeepsGood(s.core);
    assert s'.core == Consume(s.core, |r.payload|);
    assert r.payload[..|r.payload|] == r.payload;
    hide Good, Total, GoodSize;
  }

  lemma ConsumeKeepsWriter(s: State, s': State, w: Writer)
    requires WriterOk(s, w)
    requires s'.core == s.core.(readPos := s'.core.readPos, done := s'.core.done) && s.core.readPos <= s'.core.readPos
    ensures WriterOk(s', w)
  {
    hide WriterOk, BytesAt, Sized;
    OwnedUnpublished(s, w);
    CoreSizedKept(s, s', w);
    WriterKept(s, s', w);
  }

  lemma SameLockAndOwners(s: State, s': State)
    requires LockOk(s) && OwnersOk(s)
    requires s'.writers == s.writers && s'.spinlock == s.spinlock && s'.core.log == s.core.log
    ensures LockOk(s') && OwnersOk(s')
  {
  }

  lemma WritersAreOk(s: State)
    requires Inv(s)
    ensures forall t :: t in s.writers ==> WriterOk(s, s.writers[t])
    ensures ReaderOk(s) && DeliveredOk(s) && Sized(s.core)
  {
    hide WriterOk;
  }

  lemma InvAssembles(s: State)
    requires Good(s.core) && LockOk(s) && OwnersOk(s) && DeliveredOk(s) && s.reader.Waiting?
    requires forall t :: t in s.writers ==> WriterOk(s, s.writers[t])
    ensures Inv(s)
  {
    hide WriterOk, LockOk, OwnersOk, DeliveredOk;
  }

  lemma ConsumeStepInv(s: State, s': State)
    requires Inv(s) && StepReader(s, s') && s.reader.Reading? && |s.reader.got| == s.reader.len
    ensures Inv(s')
  {
    hide Inv, StepReader, Good, WriterOk, DeliveredOk, ReaderOk, LockOk, OwnersOk, Sized;
    InvParts(s);
    WritersAreOk(s);
    ConsumeEffect(s, s');
    SameLockAndOwners(s, s');
    forall t | t in s'.writers
      ensures WriterOk(s', s'.writers[t])
    {
      ConsumeKeepsWriter(s, s', s.writers[t]);
    }
    InvAssembles(s');
  }

  lemma CoreSizedKept(s: State, s': State, w: Writer)
    requires WriterOk(s, w) && s'.core == s.core.(readPos := s'.core.readPos, done := s'.core.done)
    ensures w.Cleared? ==> Sized(s'.core) && BytesAt(s'.core, w.wr, Le32(0))
  {
    hide Total, GoodSize, Le32;
  }

  // ---- The queue the ring implements ----

  /** Reserved places in order: a payload once published, nothing before. */
  function Queue(c: Core): (q: seq<Option<seq<Byte>>>)
    requires c.done <= |c.log|
    ensures |q| == |c.log| - c.done
    ensures forall j :: 0 <= j < |q| ==>
      q[j] == if c.log[c.done + j].published then Some(c.log[c.done + j].payload) else None
  {
    seq(|c.log| - c.done, j requires 0 <= j < |c.log| - c.done =>
      if c.log[c.done + j].published then Some(c.log[c.done + j].payload) else None)
  }

  /** What a queue with places filled out of order can do: nothing, reserve, fill, or give up its filled head. */
  ghost predicate QueueStep<T(!new)>(q: seq<Option<T>>, q': seq<Option<T>>, out: seq<T>, out': seq<T>) {
    || (q' == q && out' == out)
    || (q' == q + [None] && out' == out)
    || (out' == out && exists j, p :: 0 <= j < |q| && q[j] == None && q' == q[j := Some(p)])
    || (|q| > 0 && q[0].Some? && q' == q[1..] && out' == out + [q[0].value])
  }

  lemma SameLogSameQueue(c: Core, d: Core)
    requires c.done == d.done <= |c.log| == |d.log|
    requires forall i :: 0 <= i < |c.log| ==>
      c.log[i].published == d.log[i].published && c.log[i].payload == d.log[i].payload
    ensures Queue(c) == Queue(d)
  {
  }

  lemma StepKeepsLog(s: State, s': State, t: Tid)
    requires StepWriter(s, s', t) && !s.writers[t].Cleared? && !s.writers[t].Filling?
    ensures s'.core.log == s.core.log && s'.core.done == s.core.done && s'.delivered == s.delivered
  {
    hide Total, GoodSize;
  }

  lemma WriterRefinesQueue(s: State, s': State, t: Tid)
    requires Inv(s) && StepWriter(s, s', t)
    ensures s.core.done == s'.core.done <= |s.core.log| <= |s'.core.log|
    ensures QueueStep(Queue(s.core), Queue(s'.core), s.delivered, s'.delivered)
  {
    assert t in s.writers && DeliveredOk(s);
    hide Inv, StepWriter;
    match s.writers[t]
    case Filling(i) =>
      FillCase(s, s', t);
      FillEffect(s, s', t);
      hide Fill, Good;
      FillRefinesQueue(s.core, s'.core, i, s.delivered);
    case Cleared(_, _) =>
      ReserveEffect(s, s', t);
      hide Good, WriterOk;
      ReserveRefinesQueue(s.core, s'.core);
    case _ =>
      StepKeepsLog(s, s', t);
      SameLogSameQueue(s.core, s'.core);
  }

  /** Each step of the threads is one step of the queue: reserve a place, fill it, or take the head, or nothing. */
  lemma StepRefinesQueue(s: State, s': State)
    requires Inv(s) && Next(s, s')
    ensures s.core.done <= |s.core.log| && s'.core.done <= |s'.core.log|
    ensures QueueStep(Queue(s.core), Queue(s'.core), s.delivered, s'.delivered)
  {
    hide Inv, StepReader, StepWriter, QueueStep;
    if StepReader(s, s') {
      ReaderRefinesQueue(s, s');
    } else {
      var t :| StepWriter(s, s', t);
      WriterRefinesQueue(s, s', t);
    }
  }

  lemma ReserveRefinesQueue(c: Core, d: Core)
    requires c.done == d.done <= |c.log| && |d.log| == |c.log| + 1 && d.log[..|c.log|] == c.log
    requires !d.log[|c.log|].published
    ensures Queue(d) == Queue(c) + [None]
  {
    forall i | 0 <= i < |c.log|
      ensures d.log[i] == c.log[i]
    {
      assert d.log[..|c.log|][i] == c.log[i];
    }
  }

  lemma FillRefinesQueue(c: Core, d: Core, i: nat, out: seq<seq<Byte>>)
    requires c.done <= i < |c.log| && !c.log[i].published
    requires |d.log| == |c.log| && d == c.(mem := d.mem, log := c.log[i := d.log[i]]) &&
        d.log[i].payload == c.log[i].payload
    ensures QueueStep(Queue(c), Queue(d), out, out)
  {
    var q, q' := Queue(c), Queue(d);
    if d.log[i].published {
      var p := d.log[i].payload;
      assert q[i - c.done] == None;
      assert q' == q[i - c.done := Some(p)];
    } else {
      SameLogSameQueue(c, d);
    }
  }

  lemma ReaderRefinesQueue(s: State, s': State)
    requires Inv(s) && StepReader(s, s')
    ensures s.core.done <= |s.core.log| && s'.core.done <= |s'.core.log|
    ensures QueueStep(Queue(s.core), Queue(s'.core), s.delivered, s'.delivered)
  {
    hide Good, LockOk, OwnersOk, PeekHeader, PeekByte, Total;
    if s'.core == s.core {
    } else {
      var r := s.core.log[s.core.done];
      assert r.payload[..|r.payload|] == r.payload;
      var q := Queue(s.core);
      assert q[0] == Some(r.payload);
      assert Queue(s'.core) == q[1..];
    }
  }

  // ---- Whole runs ----

  lemma NextInv(s: State, s': State)
    requires Inv(s) && Next(s, s')
    ensures Inv(s')
  {
    hide Inv, StepWriter, StepReader;
    if StepReader(s, s') {
      ReaderStepInv(s, s');
    } else {
      var t :| StepWriter(s, s', t);
      WriterStepInv(s, s', t);
    }
  }

  lemma WriterStepInv(s: State, s': State, t: Tid)
    requires Inv(s) && StepWriter(s, s', t)
    ensures Inv(s')
  {
    assert t in s.writers;
    hide Inv, StepWriter;
    match s.writers[t]
    case LoadedRead(_, _, _) => ClearStepInv(s, s', t);
    case Cleared(_, _) => ReserveStepInv(s, s', t);
    case Filling(_) => FillStepInv(s, s', t);
    case _ => QuietStepInv(s, s', t);
  }

  ghost predicate Run(states: seq<State>) {
    && |states| > 0 && Init(states[0])
    && forall i, j :: 0 <= i < |states| && j == i + 1 < |states| ==> Next(states[i], states[j])
  }

  /** Every state of every run, however the threads interleave, keeps the ring's layout and its protocol. */
  lemma {:induction false} RunInv(states: seq<State>, n: nat)
    requires Run(states) && n < |states|
    ensures Inv(states[n])
  {
    hide Inv, Next, Init;
    if n == 0 {
      InitInv(states[0]);
    } else {
      RunInv(states, n - 1);
      NextInv(states[n - 1], states[n]);
    }
  }

  /**
   * The ring is a queue: at every point of every run the reader has returned, byte for byte and each once,
   * the payloads of the oldest reservations in reservation order, all of them published, and it stands
   * before the oldest reservation that it has not returned.
   */
  lemma RunIsFifo(states: seq<State>, n: nat)
    requires Run(states) && n < |states|
    ensures var s := states[n];
      && |s.delivered| == s.core.done <= |s.core.log|
      && (forall i :: 0 <= i < |s.delivered| ==> s.delivered[i] == s.core.log[i].payload && s.core.log[i].published)
      && s.core.readPos == (if s.core.done < |s.core.log| then s.core.log[s.core.done].start else s.core.writePos)
  {
    RunInv(states, n);
  }

  /**
   * In every reachable state the positions are ordered, aligned and less than a ring apart, the records tile
   * the positions without gap or overlap, and at most one writer holds the lock, which is set exactly then.
   */
  lemma RunKeepsLayout(states: seq<State>, n: nat)
    requires Run(states) && n < |states|
    ensures var s := states[n];
      && s.core.readPos <= s.core.writePos <= s.core.readPos + s.core.size
      && Aligned(s.core.readPos) && Aligned(s.core.writePos) && Tiled(s.core)
      && (forall t, u :: t in s.writers && u in s.writers && s.writers[t].HoldsLock() && s.writers[u].HoldsLock() ==>
          t == u)
      && (s.spinlock <==> exists t :: t in s.writers && s.writers[t].HoldsLock())
  {
    RunInv(states, n);
    GoodParts(states[n].core);
    hide Good, Tiled, Aligned, Stored, Ordered, Run;
  }

  /** In every reachable state no two live records share a byte. */
  lemma RunKeepsRecordsApart(states: seq<State>, n: nat, i: nat, j: nat, p: nat, q: nat)
    requires Run(states) && n < |states|
    requires var c := states[n].core;
      && c.done <= i < j < |c.log|
      && c.log[i].start <= p < c.log[i].End() && c.log[j].start <= q < c.log[j].End()
    ensures var c := states[n].core;
      Sized(c) && Slot(p, c.size) != Slot(q, c.size)
  {
    RunInv(states, n);
    hide Good, Run, Slot, Total;
    GoodParts(states[n].core);
    LiveRecordsDisjoint(states[n].core, i, j, p, q);
  }

  /**
   * In every reachable state, what a load of a live header gives is the size of the payload once it is published, all
   * of whose bytes are then in place behind it, and zero before.
   */
  lemma RunKeepsHeaders(states: seq<State>, n: nat, i: nat)
    requires Run(states) && n < |states| && states[n].core.done <= i < |states[n].core.log|
    ensures var c := states[n].core;
      && Sized(c) && PeekHeader(c, c.log[i].start) == (if c.log[i].published then |c.log[i].payload| else 0)
      && (c.log[i].published ==> BytesAt(c, c.log[i].start + HEADER_BYTES, c.log[i].payload))
  {
    hide Inv, Good, Run, PeekHeader, BytesAt, Tiled, Positioned, Ordered, Stored, GoodSize;
    RunInv(states, n);
    InvParts(states[n]);
    GoodParts(states[n].core);
    HeaderTells(states[n].core, i);
    if states[n].core.log[i].published {
      PublishedIsWhole(states[n].core, i);
    }
  }

  lemma PublishedIsWhole(c: Core, i: nat)
    requires Good(c) && c.done <= i < |c.log| && c.log[i].published
    ensures BytesAt(c, c.log[i].start + HEADER_BYTES, c.log[i].payload)
  {
    var r := c.log[i];
    assert RecordStored(c, r);
    assert r.payload[..r.written] == r.payload;
    hide ByteAt, Le32, AlignUp;
  }

  /** The oldest record is published and empty. */
  predicate EmptyAtHead(c: Core) {
    c.done < |c.log| && c.log[c.done].published && c.log[c.done].payload == []
  }

  lemma EmptyHeadStays(s: State, s': State)
    requires Inv(s) && Next(s, s') && EmptyAtHead(s.core)
    ensures EmptyAtHead(s'.core) && s'.delivered == s.delivered
  {
    if StepReader(s, s') {
      EmptyHeadIsNotRead(s, s');
    } else {
      hide Inv, StepReader, StepWriter;
      var t :| StepWriter(s, s', t);
      WriterRefinesQueue(s, s', t);
      assert Queue(s.core)[0] == Some([]);
      assert Queue(s'.core)[0] == Some([]);
    }
  }

  lemma EmptyHeadIsNotRead(s: State, s': State)
    requires Inv(s) && StepReader(s, s') && EmptyAtHead(s.core)
    ensures s'.core == s.core && s'.delivered == s.delivered
  {
    assert ReaderOk(s);
    hide Inv, Good, Total, GoodSize, PeekHeader, PeekByte;
  }

  /** An empty record that gets to the front, which no sender makes, would stop the reader for good. */
  lemma {:induction false} EmptyRecordStops(states: seq<State>, k: nat, n: nat)
    requires Run(states) && k <= n < |states| && EmptyAtHead(states[k].core)
    ensures EmptyAtHead(states[n].core) && states[n].delivered == states[k].delivered
    decreases n
  {
    hide Inv, Next, Init, EmptyAtHead;
    if k == n {
    } else {
      EmptyRecordStops(states, k, n - 1);
      RunInv(states, n - 1);
      EmptyHeadStays(states[n - 1], states[n]);
    }
  }
}
