/**
 * What can always go on in a session: no shim is ever stuck, every one ends after a few steps of its own, every place
 * in the ring gets its record, and whatever the program has asked for can still reach the book.
 */
module SessionProgress {
  import opened Bits
  import opened HeapBook
  import opened HeapSession
  import opened SessionProfile

  // ---- The next step of a shim ----

  /** Thread `t` is in a shim and has in hand what the next step needs. */
  predicate Fit(s: State, t: Tid) {
    && t in s.threads && !s.threads[t].pc.Idle? && s.threads[t].pc.x in s.blocks
    && (s.threads[t].pc.Stamped? ==>
          && s.threads[t].pc.slot < |s.slots| && s.threads[t].pc.record.AllocRecord?
          && s.threads[t].pc.record.seqno < |s.places|)
    && (s.threads[t].pc.Filling? ==> s.threads[t].pc.slot < |s.slots|)
  }

  function LetGo(s: State, x: U64): map<U64, Block>
    requires x in s.blocks
  {
    s.blocks[x := s.blocks[x].(owner := None)]
  }

  /** The step that loses no record while the session is attached; `realloc` leaves the block where it was. */
  function StepOf(s: State, t: Tid): State
    requires Fit(s, t)
  {
    var batch := s.threads[t].batch;
    match s.threads[t].pc
    case Idle => s
    case Allocated(x, size, site) =>
      if s.attached then s.(slots := s.slots + [None], threads := Put(s, t, Reserved(x, size, site, |s.slots|)))
      else s.(blocks := LetGo(s, x), threads := Put(s, t, Idle))
    case Reserved(x, size, site, slot) =>
      s.(events := s.events + [Alloc(x, size, site)], places := s.places + [Writing(t, slot)],
         blocks := s.blocks[x := s.blocks[x].(recorded := Some(|s.events|))],
         threads := Put(s, t, Stamped(x, slot, AllocRecord(|s.events|, x, size, site))))
    case Stamped(x, slot, record) =>
      s.(slots := s.slots[slot := Some(record)], places := s.places[record.seqno := InSlot(slot)],
         blocks := LetGo(s, x), threads := Put(s, t, Idle))
    case Freeing(x, after) =>
      var more := batch + [FreeEntry(|s.events|, x)];
      s.(events := s.events + [Free(x)], places := s.places + [Pending(t)],
         blocks := s.blocks[x := s.blocks[x].(freed := true)],
         threads := s.threads[t := Thread(if |more| >= FREE_BATCH_CAP then Flushing(x, after) else Acting(x, after),
                                          more)])
    case Flushing(x, after) =>
      if s.attached then s.(slots := s.slots + [None], threads := Put(s, t, Filling(x, after, |s.slots|)))
      else s.(places := Moved(s.places, batch, Discarded), threads := s.threads[t := Thread(Acting(x, after), [])])
    case Filling(x, after, slot) =>
      s.(slots := s.slots[slot := Some(FreeBatch(batch))], places := Moved(s.places, batch, InSlot(slot)),
         threads := s.threads[t := Thread(Acting(x, after), [])])
    case Acting(x, after) =>
      var rest := s.blocks - {x};
      s.(blocks := if after.RealFree? then rest else rest[x := Block(None, false, None, NOT_SAMPLED)],
         threads := Put(s, t, Idle))
  }

  lemma AllocationGoesOn(s: State, t: Tid)
    requires Fit(s, t)
    ensures var s', pc := StepOf(s, t), s.threads[t].pc;
      && (pc.Allocated? ==> if s.attached then ReserveAlloc(s, s', t) else SkipRecord(s, s', t))
      && (pc.Reserved? ==> StampAlloc(s, s', t)) && (pc.Stamped? ==> PublishAlloc(s, s', t))
  {
    hide Moved;
  }

  lemma FreeGoesOn(s: State, t: Tid)
    requires Fit(s, t)
    ensures var s', pc := StepOf(s, t), s.threads[t].pc;
      && (pc.Freeing? ==> StampFree(s, s', t, false))
      && (pc.Flushing? ==> if s.attached then ReserveFlush(s, s', t) else LoseBatch(s, s', t))
      && (pc.Filling? ==> PublishFlush(s, s', t))
      && (pc.Acting? && pc.after.RealFree? ==> ActFree(s, s', t))
      && (pc.Acting? && pc.after.RealRealloc? ==> ActRealloc(s, s', t, pc.x, false, 0, []))
  {
    hide Moved;
  }

  lemma InShim(s: State, t: Tid)
    requires Inv(s) && t in s.threads && !s.threads[t].pc.Idle?
    ensures Fit(s, t)
  {
    InvOwns(s, t);
    hide Truth, Separated, Published, Placed, InOrder, Behind, Reader, Drained, Accounts, Increasing, FreesAt;
    assert ThreadOk(t, s.threads[t], s.events, s.places);
    assert HeldOk(s.threads[t].pc, s.slots);
  }

  lemma StepIsTaken(s: State, t: Tid)
    requires Fit(s, t)
    ensures ThreadStep(s, StepOf(s, t), t)
  {
    AllocationGoesOn(s, t);
    FreeGoesOn(s, t);
    hide StepOf, MallocUnsampled, MallocSampled, ReserveAlloc, SkipRecord, StampAlloc, PublishAlloc, StartFree,
      StampFree, ReserveFlush, LoseBatch, PublishFlush, ActFree, ActRealloc, FailRealloc;
  }

  /** In every reachable state every shim can take its next step, without waiting for anyone. */
  lemma ShimGoesOn(states: seq<State>, n: nat, t: Tid) returns (s': State)
    requires Run(states) && n < |states| && t in states[n].threads && !states[n].threads[t].pc.Idle?
    ensures ThreadStep(states[n], s', t)
    ensures var s, pc := states[n], states[n].threads[t].pc;
      && (pc.Allocated? ==> if s.attached then ReserveAlloc(s, s', t) else SkipRecord(s, s', t))
      && (pc.Reserved? ==> StampAlloc(s, s', t)) && (pc.Stamped? ==> PublishAlloc(s, s', t))
      && (pc.Freeing? ==> StampFree(s, s', t, false))
      && (pc.Flushing? ==> if s.attached then ReserveFlush(s, s', t) else LoseBatch(s, s', t))
      && (pc.Filling? ==> PublishFlush(s, s', t))
      && (pc.Acting? && pc.after.RealFree? ==> ActFree(s, s', t))
      && (pc.Acting? && pc.after.RealRealloc? ==> ActRealloc(s, s', t, pc.x, false, 0, []))
  {
    hide Run, Inv, Fit, StepOf, ThreadStep, ReserveAlloc, SkipRecord, StampAlloc, PublishAlloc, StampFree,
      ReserveFlush, LoseBatch, PublishFlush, ActFree, ActRealloc;
    RunInv(states, n);
    InShim(states[n], t);
    StepIsTaken(states[n], t);
    AllocationGoesOn(states[n], t);
    FreeGoesOn(states[n], t);
    s' := StepOf(states[n], t);
  }

  /**
   * What the program may do next is up to the program: allocate anywhere, free or reallocate any block nobody frees.
   */
  lemma ProgramGoesOn(s: State, t: Tid, x: U64, size: nat, site: Site, after: After)
    requires t in s.threads && s.threads[t].pc.Idle? && s.attached
    ensures x !in s.blocks ==> exists s' :: MallocSampled(s, s', t, x, size, site)
    ensures x !in s.blocks ==> exists s' :: MallocUnsampled(s, s', t, x)
    ensures x in s.blocks && s.blocks[x].owner == None ==> exists s' :: StartFree(s, s', t, x, after)
  {
    if x !in s.blocks {
      assert MallocSampled(s, s.(blocks := s.blocks[x := Block(None, false, Some(t), Call(size, site))],
                                 threads := Put(s, t, Allocated(x, size, site))), t, x, size, site);
      assert MallocUnsampled(s, s.(blocks := s.blocks[x := Block(None, false, None, NOT_SAMPLED)]), t, x);
    } else if s.blocks[x].owner == None {
      assert StartFree(s, s.(blocks := s.blocks[x := s.blocks[x].(owner := Some(t))],
                             threads := Put(s, t, Freeing(x, after))), t, x, after);
    }
  }

  /** `realloc` may move the block to any free address, stay, or fail, and may be sampled. */
  lemma ReallocEnds(s: State, t: Tid, y: U64, sampled: bool, size: nat, site: Site)
    requires Fit(s, t) && s.threads[t].pc.Acting? && s.threads[t].pc.after.RealRealloc?
    ensures y !in s.blocks || y == s.threads[t].pc.x ==> exists s' :: ActRealloc(s, s', t, y, sampled, size, site)
    ensures exists s' :: FailRealloc(s, s', t)
  {
    var x := s.threads[t].pc.x;
    assert FailRealloc(s, s.(blocks := LetGo(s, x), threads := Put(s, t, Idle)), t);
    if y !in s.blocks || y == x {
      var rest := s.blocks - {x};
      var b := if sampled then Block(None, false, Some(t), Call(size, site)) else Block(None, false, None, NOT_SAMPLED);
      assert ActRealloc(s, s.(blocks := rest[y := b],
                              threads := Put(s, t, if sampled then Allocated(y, size, site) else Idle)),
                        t, y, sampled, size, site);
    }
  }

  // ---- Every shim ends ----

  /** How many steps of its own a shim may still take; a sampled `realloc` goes on as an allocation. */
  function ShimSteps(pc: Pc): nat {
    match pc
    case Idle => 0
    case Allocated(_, _, _) => 3
    case Reserved(_, _, _, _) => 2
    case Stamped(_, _, _) => 1
    case Freeing(_, after) => 4 + AfterSteps(after)
    case Flushing(_, after) => 3 + AfterSteps(after)
    case Filling(_, after, _) => 2 + AfterSteps(after)
    case Acting(_, after) => 1 + AfterSteps(after)
  }

  function AfterSteps(after: After): nat {
    if after.RealFree? then 0 else 3
  }

  ghost predicate Alone(s: State, s': State, t: Tid) {
    && t in s.threads && s'.threads.Keys == s.threads.Keys && s'.attached == s.attached
    && forall u :: u in s.threads && u != t ==> s'.threads[u] == s.threads[u]
  }

  ghost predicate Nearer(s: State, s': State, t: Tid) {
    Alone(s, s', t) && (!s.threads[t].pc.Idle? ==> ShimSteps(s'.threads[t].pc) < ShimSteps(s.threads[t].pc))
  }

  lemma FreeIsNearer(s: State, s': State, t: Tid, stale: bool)
    requires StampFree(s, s', t, stale)
    ensures Nearer(s, s', t)
  {
  }

  lemma BatchIsNearer(s: State, s': State, t: Tid)
    requires LoseBatch(s, s', t) || ReserveFlush(s, s', t) || PublishFlush(s, s', t)
    ensures Nearer(s, s', t)
  {
    hide Moved;
  }

  lemma RecordIsNearer(s: State, s': State, t: Tid)
    requires ReserveAlloc(s, s', t) || SkipRecord(s, s', t) || StampAlloc(s, s', t) || PublishAlloc(s, s', t)
    ensures Nearer(s, s', t)
  {
  }

  lemma ActIsNearer(s: State, s': State, t: Tid, y: U64, sampled: bool, size: nat, site: Site)
    requires ActFree(s, s', t) || FailRealloc(s, s', t) || ActRealloc(s, s', t, y, sampled, size, site)
    ensures Nearer(s, s', t)
  {
  }

  lemma CallIsAlone(s: State, s': State, t: Tid, x: U64, size: nat, site: Site, after: After)
    requires MallocUnsampled(s, s', t, x) || MallocSampled(s, s', t, x, size, site) || StartFree(s, s', t, x, after)
    ensures Nearer(s, s', t)
  {
  }

  /** Every step of a shim brings it nearer to its end, and no other thread moves. */
  lemma ShimNearer(s: State, s': State, t: Tid)
    requires ThreadStep(s, s', t)
    ensures Nearer(s, s', t)
  {
    hide Nearer, MallocUnsampled, MallocSampled, ReserveAlloc, SkipRecord, StampAlloc, PublishAlloc, StartFree,
      StampFree, ReserveFlush, LoseBatch, PublishFlush, ActFree, ActRealloc, FailRealloc;
    if stale :| StampFree(s, s', t, stale) {
      FreeIsNearer(s, s', t, stale);
    } else if LoseBatch(s, s', t) || ReserveFlush(s, s', t) || PublishFlush(s, s', t) {
      BatchIsNearer(s, s', t);
    } else if ReserveAlloc(s, s', t) || SkipRecord(s, s', t) || StampAlloc(s, s', t) || PublishAlloc(s, s', t) {
      RecordIsNearer(s, s', t);
    } else if ActFree(s, s', t) || FailRealloc(s, s', t) {
      ActIsNearer(s, s', t, 0, false, 0, []);
    } else if y, sampled, size, site :| ActRealloc(s, s', t, y, sampled, size, site) {
      ActIsNearer(s, s', t, y, sampled, size, site);
    } else if x :| MallocUnsampled(s, s', t, x) {
      CallIsAlone(s, s', t, x, 0, [], RealFree);
    } else if x, size, site :| MallocSampled(s, s', t, x, size, site) {
      CallIsAlone(s, s', t, x, size, site, RealFree);
    } else {
      var x, after :| StartFree(s, s', t, x, after);
      CallIsAlone(s, s', t, x, 0, [], after);
    }
  }

  ghost function OwnSteps(states: seq<State>, k: nat, m: nat, t: Tid): nat
    requires k <= m < |states|
    decreases m
  {
    if m == k then 0
    else OwnSteps(states, k, m - 1, t) + if ThreadStep(states[m - 1], states[m], t) then 1 else 0
  }

  ghost predicate Rests(states: seq<State>, k: nat, m: nat, t: Tid) {
    exists i :: k <= i <= m && i < |states| && t in states[i].threads && states[i].threads[t].pc.Idle?
  }

  lemma StepKeepsThread(s: State, s': State, t: Tid)
    requires Next(s, s') && t in s.threads
    ensures t in s'.threads && (ThreadStep(s, s', t) || s'.threads[t] == s.threads[t])
    ensures ThreadStep(s, s', t) ==> Nearer(s, s', t)
  {
    hide ThreadStep, Nearer, Numbers, Processed, Counted;
    if u :| ThreadStep(s, s', u) {
      ShimNearer(s, s', u);
      NearerKeeps(s, s', u, t);
    }
    if ThreadStep(s, s', t) {
      ShimNearer(s, s', t);
    }
  }

  lemma NearerKeeps(s: State, s': State, u: Tid, t: Tid)
    requires Nearer(s, s', u) && t in s.threads
    ensures t in s'.threads && (t == u || s'.threads[t] == s.threads[t])
  {
    hide ShimSteps;
  }

  lemma {:induction false} StepsCount(states: seq<State>, k: nat, m: nat, t: Tid)
    requires Run(states) && k <= m < |states| && t in states[k].threads && !Rests(states, k, m, t)
    ensures t in states[m].threads
    ensures ShimSteps(states[m].threads[t].pc) + OwnSteps(states, k, m, t) <= ShimSteps(states[k].threads[t].pc)
    decreases m
  {
    hide Next, ThreadStep, ShimSteps;
    if m == k {
    } else {
      assert !Rests(states, k, m - 1, t);
      StepsCount(states, k, m - 1, t);
      assert Next(states[m - 1], states[m]);
      StepKeepsThread(states[m - 1], states[m], t);
    }
  }

  /** Whatever the other threads do meanwhile, a shim has come to its end after at most seven steps of its own. */
  lemma ShimEnds(states: seq<State>, k: nat, m: nat, t: Tid)
    requires Run(states) && k <= m < |states| && t in states[k].threads && OwnSteps(states, k, m, t) >= 7
    ensures Rests(states, k, m, t)
  {
    hide Run, Rests, OwnSteps;
    if !Rests(states, k, m, t) {
      StepsCount(states, k, m, t);
      NotAtRest(states, k, m, t);
    }
  }

  lemma NotAtRest(states: seq<State>, k: nat, m: nat, t: Tid)
    requires k <= m < |states| && t in states[m].threads && !Rests(states, k, m, t)
    ensures ShimSteps(states[m].threads[t].pc) > 0
  {
  }

  // ---- Every place gets its record ----

  ghost predicate Holder(s: State, t: Tid, j: nat) {
    t in s.threads && HeldSlot(s.threads[t].pc) == Some(j)
  }

  /** A place that is not filled is in the hands of some shim. */
  ghost predicate AllHeld(s: State) {
    forall j :: 0 <= j < |s.slots| && s.slots[j] == None ==> exists t :: Holder(s, t, j)
  }

  ghost predicate HoldsOn(s: State, s': State, t: Tid) {
    && t in s'.threads
    && forall j :: 0 <= j < |s'.slots| && s'.slots[j] == None ==>
         || Holder(s', t, j)
         || (j < |s.slots| && s.slots[j] == None && !Holder(s, t, j))
  }

  lemma FreeHoldsOn(s: State, s': State, t: Tid, stale: bool)
    requires StampFree(s, s', t, stale)
    ensures HoldsOn(s, s', t)
  {
  }

  lemma BatchHoldsOn(s: State, s': State, t: Tid)
    requires LoseBatch(s, s', t) || ReserveFlush(s, s', t) || PublishFlush(s, s', t)
    ensures HoldsOn(s, s', t)
  {
    hide Moved;
  }

  lemma RecordHoldsOn(s: State, s': State, t: Tid)
    requires ReserveAlloc(s, s', t) || SkipRecord(s, s', t) || StampAlloc(s, s', t) || PublishAlloc(s, s', t)
    ensures HoldsOn(s, s', t)
  {
  }

  lemma ActHoldsOn(s: State, s': State, t: Tid, y: U64, sampled: bool, size: nat, site: Site)
    requires ActFree(s, s', t) || FailRealloc(s, s', t) || ActRealloc(s, s', t, y, sampled, size, site)
    ensures HoldsOn(s, s', t)
  {
  }

  lemma CallHoldsOn(s: State, s': State, t: Tid, x: U64, size: nat, site: Site, after: After)
    requires MallocUnsampled(s, s', t, x) || MallocSampled(s, s', t, x, size, site) || StartFree(s, s', t, x, after)
    ensures HoldsOn(s, s', t)
  {
  }

  lemma ShimHoldsOn(s: State, s': State, t: Tid)
    requires ThreadStep(s, s', t)
    ensures HoldsOn(s, s', t)
  {
    hide HoldsOn, MallocUnsampled, MallocSampled, ReserveAlloc, SkipRecord, StampAlloc, PublishAlloc, StartFree,
      StampFree, ReserveFlush, LoseBatch, PublishFlush, ActFree, ActRealloc, FailRealloc;
    if stale :| StampFree(s, s', t, stale) {
      FreeHoldsOn(s, s', t, stale);
    } else if LoseBatch(s, s', t) || ReserveFlush(s, s', t) || PublishFlush(s, s', t) {
      BatchHoldsOn(s, s', t);
    } else if ReserveAlloc(s, s', t) || SkipRecord(s, s', t) || StampAlloc(s, s', t) || PublishAlloc(s, s', t) {
      RecordHoldsOn(s, s', t);
    } else if ActFree(s, s', t) || FailRealloc(s, s', t) {
      ActHoldsOn(s, s', t, 0, false, 0, []);
    } else if y, sampled, size, site :| ActRealloc(s, s', t, y, sampled, size, site) {
      ActHoldsOn(s, s', t, y, sampled, size, site);
    } else if x :| MallocUnsampled(s, s', t, x) {
      CallHoldsOn(s, s', t, x, 0, [], RealFree);
    } else if x, size, site :| MallocSampled(s, s', t, x, size, site) {
      CallHoldsOn(s, s', t, x, size, site, RealFree);
    } else {
      var x, after :| StartFree(s, s', t, x, after);
      CallHoldsOn(s, s', t, x, 0, [], after);
    }
  }

  lemma AllHeldStep(s: State, s': State, t: Tid)
    requires AllHeld(s) && Alone(s, s', t) && HoldsOn(s, s', t)
    ensures AllHeld(s')
  {
    forall j | 0 <= j < |s'.slots| && s'.slots[j] == None
      ensures exists u :: Holder(s', u, j)
    {
      if !Holder(s', t, j) {
        assert s.slots[j] == None;
        var u :| Holder(s, u, j);
        assert Holder(s', u, j);
      }
    }
  }

  lemma SameAllHeld(s: State, s': State)
    requires AllHeld(s) && s'.threads == s.threads && s'.slots == s.slots
    ensures AllHeld(s')
  {
    forall j | 0 <= j < |s'.slots| && s'.slots[j] == None
      ensures exists u :: Holder(s', u, j)
    {
      var u :| Holder(s, u, j);
      assert Holder(s', u, j);
    }
  }

  lemma NextAllHeld(s: State, s': State)
    requires AllHeld(s) && Next(s, s')
    ensures AllHeld(s')
  {
    hide AllHeld, ThreadStep, HoldsOn, Numbers, Processed, Counted, ShimSteps;
    if t :| ThreadStep(s, s', t) {
      ShimNearer(s, s', t);
      ShimHoldsOn(s, s', t);
      hide Alone;
      AllHeldStep(s, s', t);
    } else {
      SameAllHeld(s, s');
    }
  }

  lemma {:induction false} RunAllHeld(states: seq<State>, n: nat)
    requires Run(states) && n < |states|
    ensures AllHeld(states[n])
    decreases n
  {
    hide Next;
    if n == 0 {
    } else {
      hide AllHeld;
      RunAllHeld(states, n - 1);
      assert Next(states[n - 1], states[n]);
      NextAllHeld(states[n - 1], states[n]);
    }
  }

  /**
   * The recorder is never blocked for good: its next place either can be taken at once, or is in the hands of a shim,
   * which can go on.
   */
  lemma RecorderGoesOn(states: seq<State>, n: nat) returns (t: Tid, s': State)
    requires Run(states) && n < |states| && states[n].done < |states[n].slots|
    ensures var s := states[n];
      if s.slots[s.done].Some? then Consume(s, s')
      else t in s.threads && HeldSlot(s.threads[t].pc) == Some(s.done) && ThreadStep(s, s', t)
  {
    var s := states[n];
    if s.slots[s.done].Some? {
      t, s' := 0, Consumed(s);
    } else {
      RunAllHeld(states, n);
      t :| Holder(s, t, s.done);
      hide Run, ThreadStep;
      s' := ShimGoesOn(states, n, t);
    }
  }

  function Consumed(s: State): (s': State)
    requires s.done < |s.slots| && s.slots[s.done].Some?
  {
    var r := s.slots[s.done].value;
    s.(done := s.done + 1, arrived := s.arrived + Numbers(r), book := Processed(s.book, r),
       sites := Counted(s.sites, s.book, r))
  }

  // ---- After the session ----

  lemma DetachedShim(s: State, s': State, t: Tid)
    requires ThreadStep(s, s', t) && !s.attached
    ensures !s.threads[t].pc.Idle? && |s'.slots| == |s.slots|
  {
    hide Moved, Put;
  }

  /** Once the session is detached no shim is entered and no place of the ring is reserved any more. */
  lemma DetachedRunsOut(s: State, s': State, t: Tid)
    requires Next(s, s') && !s.attached
    ensures !s'.attached && |s'.slots| == |s.slots|
    ensures t in s.threads && s.threads[t].pc.Idle? ==> t in s'.threads && s'.threads[t] == s.threads[t]
  {
    hide ThreadStep, Numbers, Processed, Counted, ShimSteps;
    if u :| ThreadStep(s, s', u) {
      ShimNearer(s, s', u);
      DetachedShim(s, s', u);
    }
  }

  /** A `free` cannot fail: its last step takes the block away, and nothing else. */
  lemma FreeEndsBlock(s: State, s': State, t: Tid)
    requires ThreadStep(s, s', t) && s.threads[t].pc.Acting? && s.threads[t].pc.after.RealFree?
    ensures s'.threads[t].pc.Idle? && s'.blocks == s.blocks - {s.threads[t].pc.x}
  {
    hide Moved;
  }

  // ---- How large batches are ----

  /** A batch that is about to be flushed has at least two entries. */
  predicate FlushesTwo(thread: Thread) {
    thread.pc.Flushing? || thread.pc.Filling? ==> |thread.batch| >= 2
  }

  predicate SizeOk(slot: Option<Record>) {
    slot.Some? && slot.value.FreeBatch? ==> 2 <= |slot.value.entries| <= 128
  }

  ghost predicate Sizes(s: State) {
    && (forall t :: t in s.threads ==> FlushesTwo(s.threads[t]))
    && forall j :: 0 <= j < |s.slots| ==> SizeOk(s.slots[j])
  }

  ghost predicate SizesKept(s: State, s': State, t: Tid) {
    && t in s'.threads && FlushesTwo(s'.threads[t])
    && forall j :: 0 <= j < |s'.slots| ==> SizeOk(s'.slots[j]) || (j < |s.slots| && s'.slots[j] == s.slots[j])
  }

  lemma FreeSizes(s: State, s': State, t: Tid, stale: bool)
    requires StampFree(s, s', t, stale)
    ensures SizesKept(s, s', t)
  {
  }

  lemma BatchSizes(s: State, s': State, t: Tid)
    requires LoseBatch(s, s', t) || ReserveFlush(s, s', t) || PublishFlush(s, s', t)
    requires FlushesTwo(s.threads[t]) && |s.threads[t].batch| <= 128
    ensures SizesKept(s, s', t)
  {
    hide Moved;
  }

  lemma RecordSizes(s: State, s': State, t: Tid)
    requires ReserveAlloc(s, s', t) || SkipRecord(s, s', t) || StampAlloc(s, s', t) || PublishAlloc(s, s', t)
    ensures SizesKept(s, s', t)
  {
  }

  lemma ActSizes(s: State, s': State, t: Tid, y: U64, sampled: bool, size: nat, site: Site)
    requires ActFree(s, s', t) || FailRealloc(s, s', t) || ActRealloc(s, s', t, y, sampled, size, site)
    ensures SizesKept(s, s', t)
  {
  }

  lemma CallSizes(s: State, s': State, t: Tid, x: U64, size: nat, site: Site, after: After)
    requires MallocUnsampled(s, s', t, x) || MallocSampled(s, s', t, x, size, site) || StartFree(s, s', t, x, after)
    ensures SizesKept(s, s', t)
  {
  }

  lemma ShimSizes(s: State, s': State, t: Tid)
    requires ThreadStep(s, s', t) && t in s.threads && FlushesTwo(s.threads[t]) && |s.threads[t].batch| <= 128
    ensures SizesKept(s, s', t)
  {
    hide SizesKept, FlushesTwo, MallocUnsampled, MallocSampled, ReserveAlloc, SkipRecord, StampAlloc, PublishAlloc,
      StartFree, StampFree, ReserveFlush, LoseBatch, PublishFlush, ActFree, ActRealloc, FailRealloc;
    if stale :| StampFree(s, s', t, stale) {
      FreeSizes(s, s', t, stale);
    } else if LoseBatch(s, s', t) || ReserveFlush(s, s', t) || PublishFlush(s, s', t) {
      BatchSizes(s, s', t);
    } else if ReserveAlloc(s, s', t) || SkipRecord(s, s', t) || StampAlloc(s, s', t) || PublishAlloc(s, s', t) {
      RecordSizes(s, s', t);
    } else if ActFree(s, s', t) || FailRealloc(s, s', t) {
      ActSizes(s, s', t, 0, false, 0, []);
    } else if y, sampled, size, site :| ActRealloc(s, s', t, y, sampled, size, site) {
      ActSizes(s, s', t, y, sampled, size, site);
    } else if x :| MallocUnsampled(s, s', t, x) {
      CallSizes(s, s', t, x, 0, [], RealFree);
    } else if x, size, site :| MallocSampled(s, s', t, x, size, site) {
      CallSizes(s, s', t, x, size, site, RealFree);
    } else {
      var x, after :| StartFree(s, s', t, x, after);
      CallSizes(s, s', t, x, 0, [], after);
    }
  }

  lemma SizesStep(s: State, s': State, t: Tid)
    requires Sizes(s) && Alone(s, s', t) && SizesKept(s, s', t)
    ensures Sizes(s')
  {
    hide FlushesTwo, SizeOk;
  }

  lemma InvBatch(s: State, t: Tid)
    requires Inv(s) && t in s.threads
    ensures |s.threads[t].batch| <= 128
  {
    assert ThreadOk(t, s.threads[t], s.events, s.places);
  }

  lemma NextSizes(s: State, s': State)
    requires Inv(s) && Sizes(s) && Next(s, s')
    ensures Sizes(s')
  {
    hide Inv, ThreadStep, SizesKept, FlushesTwo, SizeOk, Numbers, Processed, Counted, ShimSteps;
    if t :| ThreadStep(s, s', t) {
      ShimNearer(s, s', t);
      InvBatch(s, t);
      ShimSizes(s, s', t);
      hide Sizes, Alone;
      SizesStep(s, s', t);
    }
  }

  /** Every batch in the ring has at least two frees and at most 128: a lone free is never stale at once. */
  lemma {:induction false} BatchesHaveTwo(states: seq<State>, n: nat)
    requires Run(states) && n < |states|
    ensures Sizes(states[n])
    decreases n
  {
    hide Next, Inv;
    if n == 0 {
    } else {
      hide Sizes;
      BatchesHaveTwo(states, n - 1);
      RunInv(states, n - 1);
      assert Next(states[n - 1], states[n]);
      NextSizes(states[n - 1], states[n]);
    }
  }

  // ---- Runs that come to rest ----

  ghost predicate Continues(states: seq<State>, more: seq<State>) {
    states != [] && states <= more && Run(more)
  }

  function Last(states: seq<State>): State
    requires states != []
  {
    states[|states| - 1]
  }

  lemma OneMore(states: seq<State>, s': State)
    requires states != [] && Run(states) && Next(Last(states), s')
    ensures Continues(states, states + [s']) && Last(states + [s']) == s'
  {
    hide Init, Next;
  }

  lemma ContinuesOn(a: seq<State>, b: seq<State>, c: seq<State>)
    requires Continues(a, b) && Continues(b, c)
    ensures Continues(a, c)
  {
    hide Run;
  }

  /** Thread `t` alone finishes its shim. */
  lemma {:induction false} FinishShim(states: seq<State>, t: Tid) returns (more: seq<State>)
    requires states != [] && Run(states) && t in Last(states).threads
    ensures more != [] && Continues(states, more) && Alone(Last(states), Last(more), t)
    ensures Last(more).threads[t].pc.Idle?
    decreases ShimSteps(Last(states).threads[t].pc)
  {
    hide Run, Next, ThreadStep, ShimSteps, ReserveAlloc, SkipRecord, StampAlloc, PublishAlloc, StampFree, ReserveFlush,
      LoseBatch, PublishFlush, ActFree, ActRealloc;
    if Last(states).threads[t].pc.Idle? {
      more := states;
    } else {
      var s' := ShimGoesOn(states, |states| - 1, t);
      ThreadNext(Last(states), s', t);
      OneMore(states, s');
      ShimNearer(Last(states), s', t);
      more := FinishShim(states + [s'], t);
      ContinuesOn(states, states + [s'], more);
    }
  }

  lemma ThreadNext(s: State, s': State, t: Tid)
    requires ThreadStep(s, s', t)
    ensures Next(s, s')
  {
    hide ThreadStep, Consume;
  }

  function Busy(s: State, left: set<Tid>): set<Tid> {
    set t | t in s.threads && t !in left && !s.threads[t].pc.Idle?
  }

  ghost predicate LeftAlone(s: State, s': State, left: set<Tid>) {
    && s'.threads.Keys == s.threads.Keys && s'.attached == s.attached
    && forall t :: t in s.threads && t in left ==> s'.threads[t] == s.threads[t]
  }

  /** All shims are finished, but for those of threads that are left alone. */
  lemma {:induction false} FinishAll(states: seq<State>, left: set<Tid>) returns (more: seq<State>)
    requires states != [] && Run(states)
    ensures more != [] && Continues(states, more) && LeftAlone(Last(states), Last(more), left)
    ensures Busy(Last(more), left) == {}
    decreases |Busy(Last(states), left)|
  {
    hide Run;
    if Busy(Last(states), left) == {} {
      more := states;
    } else {
      var t :| t in Busy(Last(states), left);
      var one := FinishShim(states, t);
      var busy := Busy(Last(states), left) - {t};
      assert Busy(Last(one), left) == busy;
      more := FinishAll(one, left);
      ContinuesOn(states, one, more);
    }
  }

  /** The recorder takes all that is there, when all of it is filled. */
  lemma {:induction false} Drain(states: seq<State>) returns (more: seq<State>)
    requires states != [] && Run(states) && Last(states).done <= |Last(states).slots|
    requires forall j :: 0 <= j < |Last(states).slots| ==> Last(states).slots[j].Some?
    ensures more != [] && Continues(states, more) && Last(more).done == |Last(more).slots|
    ensures Last(more).threads == Last(states).threads && Last(more).attached == Last(states).attached
    ensures Last(more).slots == Last(states).slots && Last(more).blocks == Last(states).blocks
    decreases |Last(states).slots| - Last(states).done
  {
    hide Run, Numbers, Processed, Counted;
    var s := Last(states);
    if s.done == |s.slots| {
      more := states;
    } else {
      assert Consume(s, Consumed(s));
      OneMore(states, Consumed(s));
      more := Drain(states + [Consumed(s)]);
      ContinuesOn(states, states + [Consumed(s)], more);
    }
  }

  /** Every run can come to rest: all shims at their end, and everything in the ring taken by the recorder. */
  lemma CanComeToRest(states: seq<State>) returns (more: seq<State>)
    requires states != [] && Run(states)
    ensures more != [] && Continues(states, more)
    ensures Last(more).done == |Last(more).slots|
    ensures forall t :: t in Last(more).threads ==> Last(more).threads[t].pc.Idle?
  {
    more := RestBut(states, {});
    forall t | t in Last(more).threads
      ensures Last(more).threads[t].pc.Idle?
    {
      assert t !in Busy(Last(more), {});
    }
  }

  lemma RestBut(states: seq<State>, left: set<Tid>) returns (more: seq<State>)
    requires states != [] && Run(states)
    requires forall t :: t in left && t in Last(states).threads ==> HeldSlot(Last(states).threads[t].pc) == None
    ensures more != [] && Continues(states, more) && LeftAlone(Last(states), Last(more), left)
    ensures Busy(Last(more), left) == {}
    ensures Last(more).done == |Last(more).slots|
  {
    hide Run, Inv, AllHeld;
    var one := FinishAll(states, left);
    NothingHeld(one, left);
    more := Drain(one);
    ContinuesOn(states, one, more);
    assert Busy(Last(more), left) == Busy(Last(one), left);
  }

  lemma NothingHeld(states: seq<State>, left: set<Tid>)
    requires states != [] && Run(states) && Busy(Last(states), left) == {}
    requires forall t :: t in left && t in Last(states).threads ==> HeldSlot(Last(states).threads[t].pc) == None
    ensures Last(states).done <= |Last(states).slots|
    ensures forall j :: 0 <= j < |Last(states).slots| ==> Last(states).slots[j].Some?
  {
    hide Run, Inv;
    var s := Last(states);
    RunInv(states, |states| - 1);
    InvDrained(s);
    RunAllHeld(states, |states| - 1);
    forall t: Tid, j: nat
      ensures !Holder(s, t, j)
    {
      HoldsNothing(s, left, t, j);
    }
  }

  lemma HoldsNothing(s: State, left: set<Tid>, t: Tid, j: nat)
    requires Busy(s, left) == {}
    requires forall u :: u in left && u in s.threads ==> HeldSlot(s.threads[u].pc) == None
    ensures !Holder(s, t, j)
  {
    assert t !in Busy(s, left);
  }

  lemma InvDrained(s: State)
    requires Inv(s)
    ensures s.done <= |s.slots|
  {
  }

  // ---- From the call to the book ----

  /**
   * A call that the sampler has chosen can always reach the book: whatever the session has come to, if it is attached
   * when a thread is given the block, the run can go on to a state in which the book has the block with the weight and
   * the stack of that call.
   */
  lemma CallCanBeBooked(states: seq<State>, s': State, t: Tid, x: U64, c: Call) returns (more: seq<State>, i: nat)
    requires states != [] && Run(states) && Makes(Last(states), s', t, x, c) && s'.attached
    ensures more != [] && Continues(states + [s'], more)
    ensures x in Last(more).book && LiveAlloc(i, c.size, c.site) in Last(more).book[x]
  {
    hide *;
    MakesIsStep(Last(states), s', t, x, c);
    OneMore(states, s');
    ContinuesIsRun(states, states + [s']);
    var all := states + [s'];
    NoSlotYet(all, t);
    var rest := RestBut(all, {t});
    LeftIs(Last(all), Last(rest), t);
    ContinuesIsRun(all, rest);
    more, i := RecordIt(rest, t, x, c);
    ContinuesOn(all, rest, more);
  }

  lemma MakesIsStep(s: State, s': State, t: Tid, x: U64, c: Call)
    requires Makes(s, s', t, x, c)
    ensures Next(s, s') && t in s'.threads && s'.threads[t].pc == Allocated(x, c.size, c.site)
  {
    MakesIsThreadStep(s, s', t, x, c);
    ThreadNext(s, s', t);
    hide ThreadStep, Next;
  }

  lemma MakesIsThreadStep(s: State, s': State, t: Tid, x: U64, c: Call)
    requires Makes(s, s', t, x, c)
    ensures ThreadStep(s, s', t)
  {
    hide MallocSampled, ActRealloc;
  }

  lemma ContinuesIsRun(states: seq<State>, more: seq<State>)
    requires Continues(states, more)
    ensures Run(more) && more != []
  {
    hide Run;
  }

  lemma NoSlotYet(states: seq<State>, t: Tid)
    requires states != [] && t in Last(states).threads && Last(states).threads[t].pc.Allocated?
    ensures forall u :: u in {t} && u in Last(states).threads ==> HeldSlot(Last(states).threads[u].pc) == None
  {
  }

  lemma LeftIs(s: State, s': State, t: Tid)
    requires t in s.threads && LeftAlone(s, s', {t})
    ensures t in s'.threads && s'.threads[t] == s.threads[t] && s'.attached == s.attached
  {
  }

  lemma ShimStep(states: seq<State>, t: Tid) returns (more: seq<State>)
    requires states != [] && Run(states) && t in Last(states).threads && !Last(states).threads[t].pc.Idle?
    ensures Fit(Last(states), t) && more != [] && Continues(states, more) && Last(more) == StepOf(Last(states), t)
  {
    hide Run, Inv, Next, ThreadStep, Fit, StepOf;
    RunInv(states, |states| - 1);
    InShim(Last(states), t);
    StepIsTaken(Last(states), t);
    ThreadNext(Last(states), StepOf(Last(states), t), t);
    OneMore(states, StepOf(Last(states), t));
    more := states + [StepOf(Last(states), t)];
  }

  /** The three steps of the shim: the record lies in the next place of the ring. */
  lemma RecordWritten(s: State, t: Tid, x: U64, c: Call, a: State, b: State, r: State)
    requires Fit(s, t) && s.threads[t].pc == Allocated(x, c.size, c.site) && s.attached && s.done == |s.slots|
    requires a == StepOf(s, t) && Fit(a, t) && b == StepOf(a, t) && Fit(b, t) && r == StepOf(b, t)
    ensures r.done < |r.slots| && r.slots[r.done] == Some(AllocRecord(|s.events|, x, c.size, c.site))
  {
    hide Moved;
    assert a.threads[t].pc == Reserved(x, c.size, c.site, |s.slots|) && a.slots == s.slots + [None];
    assert b.threads[t].pc == Stamped(x, |s.slots|, AllocRecord(|s.events|, x, c.size, c.site)) && b.slots == a.slots;
  }

  lemma StillInShim(s: State, t: Tid)
    requires Fit(s, t) && (s.threads[t].pc.Reserved? || (s.threads[t].pc.Allocated? && s.attached))
    ensures t in StepOf(s, t).threads && !StepOf(s, t).threads[t].pc.Idle?
    ensures s.threads[t].pc.Allocated? ==> StepOf(s, t).threads[t].pc.Reserved?
  {
  }

  /** Three steps of the shim and one of the recorder. */
  lemma RecordIt(states: seq<State>, t: Tid, x: U64, c: Call) returns (more: seq<State>, i: nat)
    requires states != [] && Run(states) && t in Last(states).threads
    requires Last(states).threads[t].pc == Allocated(x, c.size, c.site)
    requires Last(states).attached && Last(states).done == |Last(states).slots|
    ensures more != [] && Continues(states, more)
    ensures x in Last(more).book && LiveAlloc(i, c.size, c.site) in Last(more).book[x]
  {
    hide Run, Fit, StepOf, Continues;
    i := |Last(states).events|;
    var a := ShimStep(states, t);
    StillInShim(Last(states), t);
    ContinuesIsRun(states, a);
    var b := ShimStep(a, t);
    StillInShim(Last(a), t);
    ContinuesIsRun(a, b);
    var r := ShimStep(b, t);
    ContinuesIsRun(b, r);
    RecordWritten(Last(states), t, x, c, Last(a), Last(b), Last(r));
    more := TakeRecord(r, AllocRecord(i, x, c.size, c.site));
    ContinuesOn(states, a, b);
    ContinuesOn(states, b, r);
    ContinuesOn(states, r, more);
    EntryIsThere(Last(r).book, x, LiveAlloc(i, c.size, c.site));
  }

  lemma TakeRecord(states: seq<State>, r: Record) returns (more: seq<State>)
    requires states != [] && Run(states) && Last(states).done < |Last(states).slots|
    requires Last(states).slots[Last(states).done] == Some(r)
    ensures more != [] && Continues(states, more) && Last(more).book == Processed(Last(states).book, r)
  {
    hide Run, Processed, Counted, Numbers;
    assert Consume(Last(states), Consumed(Last(states)));
    OneMore(states, Consumed(Last(states)));
    more := states + [Consumed(Last(states))];
  }

  lemma EntryIsThere(book: Live, x: U64, l: LiveAlloc)
    ensures x in AddAlloc(book, x, l) && l in AddAlloc(book, x, l)[x]
  {
  }
}
