/**
 * That the ring gets on: a published record is returned after so many steps of the reader, and a writer that holds the
 * lock ends after so many steps of its own, whatever the other threads do meanwhile.
 */
module RingProgress {
  import opened Bits
  import opened RingLayout
  import opened RingProtocol

  // ---- One look of the reader ----

  /** The oldest record is published and has the payload `p`, which is not empty. */
  predicate HeadIs(c: Core, p: seq<Byte>) {
    p != [] && c.done < |c.log| && c.log[c.done].published && c.log[c.done].payload == p
  }

  /**
   * A reader that has seen something reserved and looks at the header goes on to read the record exactly when it is
   * published and not empty, and then as many bytes as its payload has.
   */
  lemma LookAnswers(s: State, s': State)
    requires Inv(s) && StepReader(s, s') && s.reader.LoadedWr? && s.reader.rd < s.reader.wr
    ensures s.core.done < |s.core.log|
    ensures var r := s.core.log[s.core.done];
      s' == s.(reader := if r.published && r.payload != [] then Reading(s.core.readPos, |r.payload|, []) else Waiting)
  {
    InvParts(s);
    WritersAreOk(s);
    hide Inv, Good, PeekByte, Total;
    assert s.core.done < |s.core.log| by { GoodParts(s.core); ReaderIsBehind(s); }
    hide PeekHeader, GoodSize;
    HeaderTells(s.core, s.core.done);
    HeadStart(s.core);
  }

  lemma ReaderIsBehind(s: State)
    requires Positioned(s.core) && ReaderOk(s) && s.reader.LoadedWr? && s.reader.rd < s.reader.wr
    ensures s.core.done < |s.core.log|
  {
  }

  lemma HeadStart(c: Core)
    requires Good(c) && c.done < |c.log|
    ensures c.log[c.done].start == c.readPos
  {
  }

  // ---- The way of the reader to its next record ----

  /** How many steps the reader is from having returned a record of `n` bytes that is published at the head. */
  function StepsToGo(r: Reader, n: nat): nat {
    match r
    case Waiting => n + 4
    case LoadedRd(_) => n + 3
    case LoadedWr(rd, wr) => if rd < wr then n + 2 else n + 5
    case Reading(_, _, got) => if |got| <= n then n - |got| + 1 else 0
  }

  /** Each step of the reader brings it nearer, and the last one returns the payload. */
  lemma ReaderNearer(s: State, s': State, p: seq<Byte>)
    requires Inv(s) && StepReader(s, s') && HeadIs(s.core, p)
    ensures
      || (s'.delivered == s.delivered + [p] && s'.core.done == s.core.done + 1)
      || (s'.delivered == s.delivered && HeadIs(s'.core, p) && s'.core.done == s.core.done
          && StepsToGo(s'.reader, |p|) < StepsToGo(s.reader, |p|))
  {
    WritersAreOk(s);
    InvParts(s);
    match s.reader
    case Waiting =>
      hide Inv, Good;
    case LoadedRd(rd) =>
      PublishedIsVisible(s.core);
      hide Inv, Good;
    case LoadedWr(rd, wr) =>
      if rd < wr {
        LookAnswers(s, s');
      }
      hide Inv, Good, PeekHeader, PeekByte, Total;
    case Reading(rd, len, got) =>
      hide Inv, Good, PeekHeader, PeekByte, Total;
      assert |p| <= |got| ==> got == p by {
        assert p[..|p|] == p;
      }
  }

  /** With a record at the head the write position is beyond the read position. */
  lemma PublishedIsVisible(c: Core)
    requires Good(c) && c.done < |c.log|
    ensures c.readPos < c.writePos
  {
    GoodParts(c);
    hide Good, Stored, Ordered;
    LiveWindow(c, c.done);
  }

  /** A step of a writer leaves the reader, what it has returned and the head as they are. */
  lemma WriterLeavesHead(s: State, s': State, t: Tid, p: seq<Byte>)
    requires Inv(s) && StepWriter(s, s', t) && HeadIs(s.core, p)
    ensures s'.delivered == s.delivered && s'.reader == s.reader && HeadIs(s'.core, p) && s'.core.done == s.core.done
  {
    hide Inv;
    WriterKeepsReader(s, s', t);
    WriterRefinesQueue(s, s', t);
    assert Queue(s.core)[0] == Some(p);
    assert Queue(s'.core)[0] == Some(p);
  }

  lemma WriterKeepsReader(s: State, s': State, t: Tid)
    requires StepWriter(s, s', t)
    ensures s'.reader == s.reader && s'.delivered == s.delivered
  {
    hide Total, GoodSize, PokeHeader, Filled;
  }

  /** How many of the steps from `k` to `m` were the reader's. */
  ghost function ReaderSteps(states: seq<State>, k: nat, m: nat): nat
    requires k <= m < |states|
    decreases m
  {
    if m == k then 0
    else ReaderSteps(states, k, m - 1) + if StepReader(states[m - 1], states[m]) then 1 else 0
  }

  lemma DeliveredGrows(s: State, s': State)
    requires Inv(s) && Next(s, s')
    ensures s.delivered <= s'.delivered
  {
    hide Inv, StepReader, StepWriter, Queue;
    StepRefinesQueue(s, s');
  }

  /**
   * However the writers' steps are mixed in, once a record with payload `p` is published at the head, the reader has
   * returned it after |p| + 5 steps of its own: until then it comes nearer with each of them.
   */
  lemma {:induction false} ReaderGetsOn(states: seq<State>, k: nat, m: nat, p: seq<Byte>)
    requires Run(states) && k <= m < |states| && HeadIs(states[k].core, p)
    ensures
      || states[k].delivered + [p] <= states[m].delivered
      || (states[m].delivered == states[k].delivered && HeadIs(states[m].core, p)
          && StepsToGo(states[m].reader, |p|) + ReaderSteps(states, k, m) <= StepsToGo(states[k].reader, |p|))
    decreases m
  {
    hide Inv, Next, StepReader, HeadIs, StepsToGo;
    if m == k {
    } else {
      ReaderGetsOn(states, k, m - 1, p);
      RunInv(states, m - 1);
      var s, s' := states[m - 1], states[m];
      assert Next(s, s');
      DeliveredGrows(s, s');
      if states[k].delivered + [p] <= s.delivered {
      } else {
        OneStepOn(s, s', p);
      }
    }
  }

  lemma OneStepOn(s: State, s': State, p: seq<Byte>)
    requires Inv(s) && Next(s, s') && HeadIs(s.core, p)
    ensures
      || s'.delivered == s.delivered + [p]
      || (s'.delivered == s.delivered && HeadIs(s'.core, p)
          && StepsToGo(s'.reader, |p|) + (if StepReader(s, s') then 1 else 0) <= StepsToGo(s.reader, |p|))
  {
    hide Inv, StepReader, StepWriter, HeadIs, StepsToGo;
    if StepReader(s, s') {
      ReaderNearer(s, s', p);
    } else {
      var t :| StepWriter(s, s', t);
      WriterLeavesHead(s, s', t, p);
    }
  }

  /** A published record is returned, byte for byte and next, after at most |p| + 5 steps of the reader. */
  lemma PublishedIsReturned(states: seq<State>, k: nat, m: nat, p: seq<Byte>)
    requires Run(states) && k <= m < |states| && HeadIs(states[k].core, p)
    requires ReaderSteps(states, k, m) >= |p| + 5
    ensures states[k].delivered + [p] <= states[m].delivered
  {
    hide Run, HeadIs, ReaderSteps;
    ReaderGetsOn(states, k, m, p);
    RunReading(states, m, p);
  }

  lemma RunReading(states: seq<State>, m: nat, p: seq<Byte>)
    requires Run(states) && m < |states|
    ensures HeadIs(states[m].core, p) ==> StepsToGo(states[m].reader, |p|) > 0
  {
    RunInv(states, m);
    assert ReaderOk(states[m]);
    hide Run, Inv;
  }

  // ---- The way of a writer through its critical section and its copy ----

  /** The writer is on its way with `p`, from holding the lock to publishing; or it has been refused and must unlock. */
  predicate Sends(c: Core, w: Writer, p: seq<Byte>) {
    match w
    case Locked(q) => q == p
    case LoadedWrite(q, _) => q == p
    case LoadedRead(q, _, _) => q == p
    case Cleared(q, _) => q == p
    case Reserved(i) => i < |c.log| && c.log[i].payload == p && c.log[i].written == 0
    case Filling(i) => i < |c.log| && c.log[i].payload == p && c.log[i].written <= |p|
    case Full => true
    case _ => false
  }

  function StepsOfWriter(c: Core, w: Writer, n: nat): nat {
    match w
    case Locked(_) => n + 6
    case LoadedWrite(_, _) => n + 5
    case LoadedRead(_, _, _) => n + 4
    case Cleared(_, _) => n + 3
    case Reserved(_) => n + 2
    case Filling(i) => if i < |c.log| && c.log[i].written <= n then n - c.log[i].written + 1 else 0
    case Full => 1
    case _ => 0
  }

  /** The step with which the writer is done: it publishes `p`, or gives the lock back after a refusal. */
  ghost predicate Ends(s: State, s': State, t: Tid, p: seq<Byte>) {
    && StepWriter(s, s', t) && s'.writers[t] == Idle
    && match s.writers[t]
       case Full => !s'.spinlock
       case Filling(i) => i < |s'.core.log| && s'.core.log[i].published && s'.core.log[i].payload == p
       case _ => false
  }

  lemma RegistersNearer(s: State, s': State, t: Tid, p: seq<Byte>)
    requires Inv(s) && StepWriter(s, s', t) && Sends(s.core, s.writers[t], p) && !s.writers[t].Filling?
    requires !s.writers[t].Full? && !s.writers[t].Cleared?
    ensures t in s'.writers && Sends(s'.core, s'.writers[t], p)
    ensures StepsOfWriter(s'.core, s'.writers[t], |p|) < StepsOfWriter(s.core, s.writers[t], |p|)
  {
    hide Inv, Total, GoodSize, PokeHeader;
  }

  lemma ReservingNearer(s: State, s': State, t: Tid, p: seq<Byte>)
    requires Inv(s) && StepWriter(s, s', t) && Sends(s.core, s.writers[t], p) && s.writers[t].Cleared?
    ensures t in s'.writers && Sends(s'.core, s'.writers[t], p)
    ensures StepsOfWriter(s'.core, s'.writers[t], |p|) < StepsOfWriter(s.core, s.writers[t], |p|)
  {
    hide Inv, Total, GoodSize, PokeHeader;
  }

  lemma FillingNearer(s: State, s': State, t: Tid, p: seq<Byte>)
    requires Inv(s) && StepWriter(s, s', t) && Sends(s.core, s.writers[t], p) && s.writers[t].Filling?
    ensures Ends(s, s', t, p)
         || (t in s'.writers && Sends(s'.core, s'.writers[t], p)
             && StepsOfWriter(s'.core, s'.writers[t], |p|) < StepsOfWriter(s.core, s.writers[t], |p|))
  {
    FillCase(s, s', t);
    hide Inv, Good, Total, GoodSize, PokeHeader, Poke;
    FilledIs(s.core, s.writers[t].record);
  }

  lemma FilledIs(c: Core, i: nat)
    requires Sized(c) && i < |c.log| && |c.log[i].payload| < TWO_32 && Total(|c.log[i].payload|) <= c.size
    ensures var r := c.log[i];
      var next := if r.written < |r.payload| then r.(written := r.written + 1) else r.(published := true);
      Filled(c, i).log == c.log[i := next]
  {
    hide PokeHeader, Poke, Total, GoodSize;
  }

  lemma WriterNearer(s: State, s': State, t: Tid, p: seq<Byte>)
    requires Inv(s) && StepWriter(s, s', t) && Sends(s.core, s.writers[t], p)
    ensures Ends(s, s', t, p)
         || (t in s'.writers && Sends(s'.core, s'.writers[t], p)
             && StepsOfWriter(s'.core, s'.writers[t], |p|) < StepsOfWriter(s.core, s.writers[t], |p|))
  {
    hide Inv, Sends, StepsOfWriter;
    match s.writers[t]
    case Filling(_) => FillingNearer(s, s', t, p);
    case Cleared(_, _) => ReservingNearer(s, s', t, p);
    case Full =>
    case _ =>
      OnTheWay(s.core, s.writers[t], p);
      RegistersNearer(s, s', t, p);
  }

  lemma OnTheWay(c: Core, w: Writer, p: seq<Byte>)
    requires Sends(c, w, p)
    ensures w.HoldsLock() || w.Filling?
  {
  }

  /** A record that one writer fills is left alone by the steps of all others. */
  lemma OthersKeepRecord(s: State, s': State, t: Tid, u: Tid, i: nat)
    requires Inv(s) && StepWriter(s, s', u) && u != t && t in s.writers && s.writers[t].Owns(i)
    ensures i < |s.core.log| && i < |s'.core.log| && s'.core.log[i] == s.core.log[i]
  {
    assert WriterOk(s, s.writers[t]);
    OwnedUnpublished(s, s.writers[t]);
    InvParts(s);
    hide Inv, Good, WriterOk, StepWriter;
    match s.writers[u]
    case Filling(j) =>
      FillCase(s, s', u);
      FillEffect(s, s', u);
      if j == i {
        OnlyOwner(s, t, u, i);
      }
      hide Fill;
    case Cleared(_, _) =>
      ReserveEffect(s, s', u);
      assert s'.core.log[..|s.core.log|][i] == s.core.log[i];
    case _ =>
      StepKeepsLog(s, s', u);
  }

  lemma ReaderKeepsLog(s: State, s': State)
    requires StepReader(s, s')
    ensures s'.core.log == s.core.log && s'.writers == s.writers
  {
    hide PeekHeader, PeekByte, Total, GoodSize;
  }

  lemma OthersMoveOnlyThemselves(s: State, s': State, t: Tid, u: Tid)
    requires StepWriter(s, s', u) && u != t && t in s.writers
    ensures t in s'.writers && s'.writers[t] == s.writers[t]
  {
    hide Total, GoodSize, PokeHeader, Filled;
  }

  lemma SameRecordSends(c: Core, d: Core, w: Writer, p: seq<Byte>)
    requires Sends(c, w, p)
    requires forall i: nat :: w.Owns(i) ==> i < |c.log| && i < |d.log| && d.log[i] == c.log[i]
    ensures Sends(d, w, p) && StepsOfWriter(d, w, |p|) == StepsOfWriter(c, w, |p|)
  {
    if w.Reserved? || w.Filling? {
      assert w.Owns(w.record);
    }
  }

  lemma OthersLeaveWriter(s: State, s': State, t: Tid, p: seq<Byte>)
    requires Inv(s) && Next(s, s') && !StepWriter(s, s', t) && t in s.writers && Sends(s.core, s.writers[t], p)
    ensures t in s'.writers && s'.writers[t] == s.writers[t] && Sends(s'.core, s'.writers[t], p)
    ensures StepsOfWriter(s'.core, s'.writers[t], |p|) == StepsOfWriter(s.core, s.writers[t], |p|)
  {
    hide Inv, Sends, StepsOfWriter, StepReader, StepWriter;
    var w := s.writers[t];
    if StepReader(s, s') {
      ReaderKeepsLog(s, s');
      OwnedIsThere(s, t);
    } else {
      var u :| StepWriter(s, s', u);
      OthersMoveOnlyThemselves(s, s', t, u);
      forall i: nat | w.Owns(i)
        ensures i < |s.core.log| && i < |s'.core.log| && s'.core.log[i] == s.core.log[i]
      {
        OthersKeepRecord(s, s', t, u, i);
      }
    }
    SameRecordSends(s.core, s'.core, w, p);
  }

  lemma OwnedIsThere(s: State, t: Tid)
    requires Inv(s) && t in s.writers
    ensures forall i: nat :: s.writers[t].Owns(i) ==> i < |s.core.log|
  {
    assert WriterOk(s, s.writers[t]);
    OwnedUnpublished(s, s.writers[t]);
  }

  /** How many of the steps from `k` to `m` were those of writer `t`. */
  ghost function WriterSteps(states: seq<State>, k: nat, m: nat, t: Tid): nat
    requires k <= m < |states|
    decreases m
  {
    if m == k then 0
    else WriterSteps(states, k, m - 1, t) + if StepWriter(states[m - 1], states[m], t) then 1 else 0
  }

  ghost predicate EndsBetween(states: seq<State>, k: nat, m: nat, t: Tid, p: seq<Byte>) {
    exists i, j :: k <= i && j == i + 1 && j <= m && j < |states| && Ends(states[i], states[j], t, p)
  }

  lemma {:induction false} WriterGetsOn(states: seq<State>, k: nat, m: nat, t: Tid, p: seq<Byte>)
    requires Run(states) && k <= m < |states| && t in states[k].writers
    requires Sends(states[k].core, states[k].writers[t], p)
    ensures
      || EndsBetween(states, k, m, t, p)
      || (t in states[m].writers && Sends(states[m].core, states[m].writers[t], p)
          && StepsOfWriter(states[m].core, states[m].writers[t], |p|) + WriterSteps(states, k, m, t)
             <= StepsOfWriter(states[k].core, states[k].writers[t], |p|))
    decreases m
  {
    hide Inv, StepReader, StepWriter, Sends, StepsOfWriter, Ends;
    if m == k {
    } else {
      WriterGetsOn(states, k, m - 1, t, p);
      RunInv(states, m - 1);
      var s, s' := states[m - 1], states[m];
      assert Next(s, s');
      hide Run;
      if EndsBetween(states, k, m - 1, t, p) {
      } else if StepWriter(s, s', t) {
        WriterNearer(s, s', t, p);
      } else {
        OthersLeaveWriter(s, s', t, p);
      }
    }
  }

  /**
   * A writer that holds the lock ends after at most |p| + 6 steps of its own, whatever others do meanwhile: it has
   * published its payload, or been refused and given the lock back.
   */
  lemma LockedWriterEnds(states: seq<State>, k: nat, m: nat, t: Tid, p: seq<Byte>)
    requires Run(states) && k <= m < |states| && t in states[k].writers && states[k].writers[t] == Locked(p)
    requires WriterSteps(states, k, m, t) >= |p| + 6
    ensures EndsBetween(states, k, m, t, p)
  {
    hide Run, WriterSteps, EndsBetween, Ends;
    assert Sends(states[k].core, states[k].writers[t], p);
    WriterGetsOn(states, k, m, t, p);
    if t in states[m].writers && Sends(states[m].core, states[m].writers[t], p) {
      NotThere(states[m].core, states[m].writers[t], p);
    }
  }

  lemma NotThere(c: Core, w: Writer, p: seq<Byte>)
    requires Sends(c, w, p)
    ensures StepsOfWriter(c, w, |p|) > 0
  {
  }

  // ---- A refusal is right ----

  /** Where a writer's loaded positions come from. */
  ghost predicate LoadedAt(states: seq<State>, i: int, n: nat, t: Tid, wr: nat, rd: nat) {
    && 0 <= i < n && i < |states| && t in states[i].writers && states[i].writers[t].LoadedWrite?
    && states[i].core.readPos == rd && states[i].core.writePos == wr
  }

  lemma LoadingLoads(s: State, s': State, t: Tid)
    requires Inv(s) && Next(s, s') && t in s.writers && t in s'.writers && s'.writers[t].LoadedRead?
    ensures var w' := s'.writers[t];
      || s.writers[t] == w'
      || (s.writers[t].LoadedWrite? && s.core.readPos == w'.rd && s.core.writePos == w'.wr)
  {
    hide StepReader, Good;
    if StepReader(s, s') {
      ReaderKeepsLog(s, s');
      hide Inv;
    } else {
      var u :| StepWriter(s, s', u);
      if u != t {
        hide Inv, StepWriter;
        OthersMoveOnlyThemselves(s, s', t, u);
      } else {
        assert WriterOk(s, s.writers[t]);
        hide Inv, Total, GoodSize, PokeHeader, Filled;
      }
    }
  }

  lemma WritersStay(s: State, s': State, t: Tid)
    requires Next(s, s')
    ensures t in s'.writers <==> t in s.writers
  {
    hide Total, GoodSize, PokeHeader, Filled, PeekHeader, PeekByte;
  }

  lemma {:induction false} LoadedFrom(states: seq<State>, n: nat, t: Tid) returns (i: nat)
    requires Run(states) && n < |states| && t in states[n].writers && states[n].writers[t].LoadedRead?
    ensures LoadedAt(states, i, n, t, states[n].writers[t].wr, states[n].writers[t].rd)
    decreases n
  {
    hide Inv, Next;
    i := 0;
    if n == 0 {
      NobodyHasLoaded(states, t);
    } else {
      RunInv(states, n - 1);
      var s, s' := states[n - 1], states[n];
      assert Next(s, s');
      WritersStay(s, s', t);
      LoadingLoads(s, s', t);
      if s.writers[t] == s'.writers[t] {
        i := LoadedFrom(states, n - 1, t);
      } else {
        i := n - 1;
      }
    }
  }

  lemma NobodyHasLoaded(states: seq<State>, t: Tid)
    requires Run(states) && t in states[0].writers
    ensures !states[0].writers[t].LoadedRead?
  {
  }

  /**
   * A writer is refused exactly when its record did not fit in what was free at the moment when it loaded the read
   * position, under the lock; what the reader has freed since does not count.
   */
  lemma RefusedIff(states: seq<State>, n: nat, t: Tid) returns (i: nat)
    requires Run(states) && n + 1 < |states| && t in states[n].writers && states[n].writers[t].LoadedRead?
    requires StepWriter(states[n], states[n + 1], t)
    ensures i < n && t in states[i].writers && states[i].writers[t].LoadedWrite?
    ensures states[n + 1].writers[t].Full? <==>
      states[i].core.writePos - states[i].core.readPos + Total(|states[n].writers[t].payload|) > states[i].core.size
    ensures !states[n + 1].writers[t].Full? ==> states[n + 1].writers[t].Cleared?
  {
    i := LoadedFrom(states, n, t);
    SizeIsFixed(states, i, n);
    hide Run, Total, GoodSize, PokeHeader;
  }

  lemma {:induction false} SizeIsFixed(states: seq<State>, i: nat, n: nat)
    requires Run(states) && i <= n < |states|
    ensures states[n].core.size == states[i].core.size
    decreases n
  {
    if i == n {
    } else {
      SizeIsFixed(states, i, n - 1);
      var s, s' := states[n - 1], states[n];
      assert Next(s, s');
      hide Run;
      SizeStays(s, s');
    }
  }

  lemma SizeStays(s: State, s': State)
    requires Next(s, s')
    ensures s'.core.size == s.core.size
  {
    hide Total, GoodSize, PeekHeader, PeekByte;
  }

  // ---- Nobody is stuck ----

  lemma ReaderCanStep(s: State) returns (s': State)
    requires Inv(s)
    ensures StepReader(s, s')
  {
    InvParts(s);
    WritersAreOk(s);
    hide Inv, PeekByte, PeekHeader, Total;
    match s.reader
    case Waiting => s' := s.(reader := LoadedRd(s.core.readPos));
    case LoadedRd(rd) => s' := s.(reader := LoadedWr(rd, s.core.writePos));
    case LoadedWr(rd, wr) =>
      s' := s.(reader := if rd >= wr || PeekHeader(s.core, rd) == 0 then Waiting
                         else Reading(rd, PeekHeader(s.core, rd), []));
    case Reading(rd, len, got) =>
      if |got| < len {
        PayloadReads(s.core, |got|);
        s' := s.(reader := Reading(rd, len, got + [PeekByte(s.core, rd, HEADER_BYTES + |got|)]));
      } else {
        s' := s.(reader := Waiting, core := s.core.(readPos := rd + Total(len), done := s.core.done + 1),
                 delivered := s.delivered + [got]);
      }
  }

  lemma WriterCanStep(s: State, t: Tid) returns (s': State)
    requires Inv(s) && t in s.writers
    ensures StepWriter(s, s', t)
  {
    hide Inv, Good, LockOk, OwnersOk, ReaderOk, DeliveredOk, WriterOk, Total, PokeHeader, GoodSize, Fill;
    InvParts(s);
    WritersAreOk(s);
    match s.writers[t]
    case Idle =>
      s' := Go(s, t, if Total(0) > s.core.size then Idle else Trying([]));
      assert Begin(s, s', t, []);
    case Trying(p) => s' := Go(s, t, if s.spinlock then Trying(p) else SawFree(p));
    case SawFree(p) => s' := Go(s, t, if s.spinlock then Trying(p) else Locked(p)).(spinlock := true);
    case Locked(p) => s' := Go(s, t, LoadedWrite(p, s.core.writePos));
    case LoadedWrite(p, wr) => s' := Go(s, t, LoadedRead(p, wr, s.core.readPos));
    case LoadedRead(p, wr, rd) =>
      s' := if wr - rd + Total(|p|) > s.core.size then Go(s, t, Full)
            else Go(s, t, Cleared(p, wr)).(core := PokeHeader(s.core, wr, 0));
    case Cleared(p, wr) =>
      s' := Go(s, t, Reserved(|s.core.log|)).(core := s.core.(
        writePos := wr + Total(|p|), log := s.core.log + [Record(wr, p, 0, false)]));
    case Reserved(i) => s' := Go(s, t, Filling(i)).(spinlock := false);
    case Full => s' := Go(s, t, Idle).(spinlock := false);
    case Filling(i) => s' := FillerCanStep(s, t, i);
  }

  lemma FillerCanStep(s: State, t: Tid, i: nat) returns (s': State)
    requires Inv(s) && t in s.writers && s.writers[t] == Filling(i)
    ensures Fill(s, s', t, i)
  {
    hide Inv, Good, Sized, Total, GoodSize, Filled, LockOk, OwnersOk, ReaderOk, DeliveredOk;
    InvParts(s);
    WritersAreOk(s);
    assert WriterOk(s, s.writers[t]);
    UnpublishedIsLive(s.core, i);
    FilledKeepsGood(s.core, i);
    s' := Go(s, t, if Filled(s.core, i).log[i].published then Idle else Filling(i)).(core := Filled(s.core, i));
  }

  lemma UnpublishedIsLive(c: Core, i: nat)
    requires Good(c) && i < |c.log| && !c.log[i].published
    ensures c.done <= i
  {
  }

  /** A writer that finds the lock free and is not disturbed has it after two steps. */
  lemma FreeLockIsTaken(s: State, s': State, s'': State, t: Tid)
    requires t in s.writers && s.writers[t].Trying? && !s.spinlock
    requires StepWriter(s, s', t) && StepWriter(s', s'', t)
    ensures s''.writers[t] == Locked(s.writers[t].payload) && s''.spinlock
  {
    hide Total, GoodSize, PokeHeader, Filled;
  }
}
