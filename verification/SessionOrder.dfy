/**
 * In which order allocation records arrive. A number is drawn after the place in the ring is reserved, so a thread
 * may draw one while another, whose place is ahead, still waits for its own. Over whole runs of a session, that is
 * exactly when allocations arrive out of order.
 */
module SessionOrder {
  import opened Bits
  import opened HeapBook
  import opened HeapSession

  /** The allocations have arrived in the order of their numbers. */
  ghost predicate AllocsAscend(s: State) {
    forall p, q :: 0 <= p < q < |s.arrived| && AllocArrived(s, p) && AllocArrived(s, q) ==> s.arrived[p] < s.arrived[q]
  }

  ghost predicate AllocArrived(s: State, p: nat)
    requires p < |s.arrived|
  {
    s.arrived[p] < |s.events| && s.events[s.arrived[p]].Alloc?
  }

  predicate WaitsWith(pc: Pc, i: nat) {
    pc.Reserved? && pc.slot == i
  }

  /** The allocation that place `i` is reserved for has no number yet. */
  ghost predicate Waiting(s: State, i: nat) {
    exists t :: t in s.threads && WaitsWith(s.threads[t].pc, i)
  }

  /** Event `e` is the allocation that place `i` is for. */
  predicate AllocAt(s: State, e: nat, i: nat) {
    e < |s.events| && e < |s.places| && s.events[e].Alloc? && SlotOf(s.places[e]) == Some(i)
  }

  /** In this step the allocation at place `i` draws the number `e`. */
  ghost predicate Draws(s: State, s': State, e: nat, i: nat) {
    e == |s.events| && exists t :: StampAlloc(s, s', t) && WaitsWith(s.threads[t].pc, i)
  }

  /** In this step place `j` draws its number although the earlier place `i` still waits for its own. */
  ghost predicate Overtakes(s: State, s': State, i: nat, j: nat) {
    i < j && Waiting(s, i) && Draws(s, s', |s.events|, j)
  }

  ghost predicate OvertakesAt(states: seq<State>, k: nat, i: nat, j: nat) {
    k + 1 < |states| && Overtakes(states[k], states[k + 1], i, j)
  }

  // ---- One step ----

  /** What a step does to place `i`. */
  ghost predicate StepOk(s: State, s': State, i: nat) {
    && |s.slots| <= |s'.slots| && |s.events| <= |s'.events|
    && (i < |s.slots| && Waiting(s', i) ==> Waiting(s, i))
    && (Waiting(s, i) ==> Waiting(s', i) || Draws(s, s', |s.events|, i))
    && (forall e :: AllocAt(s, e, i) ==> AllocAt(s', e, i))
    && (forall e :: AllocAt(s', e, i) ==> AllocAt(s, e, i) || Draws(s, s', e, i))
  }

  ghost predicate Well(s: State) {
    Threads(s.threads, s.events, s.places) && Placed(s.events, s.places, s.threads, s.slots)
  }

  /** A step in which no allocation draws a number or moves to another place. */
  ghost predicate SameAllocs(s: State, s': State) {
    && |s.slots| <= |s'.slots| && |s.events| <= |s'.events| && |s.places| == |s.events| && |s'.places| == |s'.events|
    && (forall e :: 0 <= e < |s.events| ==>
          s'.events[e] == s.events[e] && (s.events[e].Alloc? ==> SlotOf(s'.places[e]) == SlotOf(s.places[e])))
    && (forall e :: |s.events| <= e < |s'.events| ==> !s'.events[e].Alloc?)
  }

  /** No thread starts or stops waiting, but perhaps one with a new place. */
  ghost predicate SameWaiters(s: State, s': State) {
    && s'.threads.Keys == s.threads.Keys
    && forall t, i: nat :: t in s.threads && (i < |s.slots| || s.threads[t].pc.Reserved?) ==>
         (WaitsWith(s'.threads[t].pc, i) <==> WaitsWith(s.threads[t].pc, i))
  }

  lemma SameIsOk(s: State, s': State, i: nat)
    requires SameAllocs(s, s') && SameWaiters(s, s')
    ensures StepOk(s, s', i)
  {
    hide SlotOf, WaitsWith;
    if Waiting(s, i) {
      var t :| t in s.threads && WaitsWith(s.threads[t].pc, i);
      WaiterIsReserved(s.threads[t].pc, i);
      assert WaitsWith(s'.threads[t].pc, i);
    }
    if i < |s.slots| && Waiting(s', i) {
      var t :| t in s'.threads && WaitsWith(s'.threads[t].pc, i);
      assert WaitsWith(s.threads[t].pc, i);
    }
  }

  lemma WaiterIsReserved(pc: Pc, i: nat)
    requires WaitsWith(pc, i)
    ensures pc.Reserved?
  {
  }

  lemma QuietOk(s: State, s': State, t: Tid, i: nat)
    requires |s.places| == |s.events|
    requires
      || ReserveAlloc(s, s', t) || SkipRecord(s, s', t) || ReserveFlush(s, s', t)
      || ActFree(s, s', t) || FailRealloc(s, s', t)
    ensures StepOk(s, s', i)
  {
    hide StepOk, SlotOf;
    SameIsOk(s, s', i);
  }

  lemma ProgramOk(s: State, s': State, t: Tid, y: U64, size: nat, site: Site, i: nat)
    requires |s.places| == |s.events|
    requires
      || MallocUnsampled(s, s', t, y) || MallocSampled(s, s', t, y, size, site)
      || (exists after :: StartFree(s, s', t, y, after))
      || (exists sampled :: ActRealloc(s, s', t, y, sampled, size, site))
      || (exists stale :: StampFree(s, s', t, stale))
    ensures StepOk(s, s', i)
  {
    hide StepOk, SlotOf;
    SameIsOk(s, s', i);
  }

  lemma PublishOk(s: State, s': State, t: Tid, i: nat)
    requires Well(s) && PublishAlloc(s, s', t)
    ensures StepOk(s, s', i)
  {
    assert ThreadOk(t, s.threads[t], s.events, s.places);
    hide StepOk, Well;
    SameIsOk(s, s', i);
  }

  lemma FlushOk(s: State, s': State, t: Tid, i: nat)
    requires Well(s) && (LoseBatch(s, s', t) || PublishFlush(s, s', t))
    ensures StepOk(s, s', i)
  {
    assert ThreadOk(t, s.threads[t], s.events, s.places);
    hide StepOk, Well;
    assert SameAllocs(s, s');
    SameIsOk(s, s', i);
  }

  lemma StampOthersWait(s: State, s': State, t: Tid, i: nat)
    requires StampAlloc(s, s', t)
    ensures Waiting(s', i) ==> Waiting(s, i)
    ensures Waiting(s, i) ==> Waiting(s', i) || Draws(s, s', |s.events|, i)
  {
    if Waiting(s, i) {
      var u :| u in s.threads && WaitsWith(s.threads[u].pc, i);
      if u != t {
        assert WaitsWith(s'.threads[u].pc, i);
      }
    }
    if Waiting(s', i) {
      var u :| u in s'.threads && WaitsWith(s'.threads[u].pc, i);
      assert WaitsWith(s.threads[u].pc, i);
    }
  }

  lemma DrawOk(s: State, s': State, t: Tid, i: nat)
    requires |s.places| == |s.events| && StampAlloc(s, s', t)
    ensures StepOk(s, s', i)
  {
    hide Waiting;
    StampOthersWait(s, s', t, i);
    forall e | AllocAt(s', e, i)
      ensures AllocAt(s, e, i) || Draws(s, s', e, i)
    {
      if e == |s.events| {
        assert WaitsWith(s.threads[t].pc, i);
      }
    }
  }

  lemma RecorderOk(s: State, s': State, i: nat)
    requires |s.places| == |s.events| && (Detach(s, s') || Consume(s, s'))
    ensures StepOk(s, s', i)
  {
    hide StepOk, Numbers, Processed, Counted, SlotOf;
    SameIsOk(s, s', i);
  }

  lemma ThreadStepOk(s: State, s': State, t: Tid, i: nat)
    requires Well(s) && ThreadStep(s, s', t)
    ensures StepOk(s, s', i)
  {
    assert |s.places| == |s.events|;
    hide Well, StepOk, MallocUnsampled, MallocSampled, ReserveAlloc, SkipRecord, StampAlloc, PublishAlloc, StartFree,
      StampFree, ReserveFlush, LoseBatch, PublishFlush, ActFree, ActRealloc, FailRealloc;
    if StampAlloc(s, s', t) {
      DrawOk(s, s', t, i);
    } else if PublishAlloc(s, s', t) {
      PublishOk(s, s', t, i);
    } else if LoseBatch(s, s', t) || PublishFlush(s, s', t) {
      FlushOk(s, s', t, i);
    } else if y :| MallocUnsampled(s, s', t, y) {
      ProgramOk(s, s', t, y, 0, [], i);
    } else if y, size, site :| MallocSampled(s, s', t, y, size, site) {
      ProgramOk(s, s', t, y, size, site, i);
    } else if y, after :| StartFree(s, s', t, y, after) {
      ProgramOk(s, s', t, y, 0, [], i);
    } else if stale :| StampFree(s, s', t, stale) {
      ProgramOk(s, s', t, 0, 0, [], i);
    } else if y, sampled, size, site :| ActRealloc(s, s', t, y, sampled, size, site) {
      ProgramOk(s, s', t, y, size, site, i);
    } else {
      QuietOk(s, s', t, i);
    }
  }

  lemma NextOk(s: State, s': State, i: nat)
    requires Well(s) && Next(s, s')
    ensures StepOk(s, s', i)
  {
    assert |s.places| == |s.events|;
    hide Well, ThreadStep, Detach, Consume, StepOk;
    if t :| ThreadStep(s, s', t) {
      ThreadStepOk(s, s', t, i);
    } else {
      RecorderOk(s, s', i);
    }
  }

  lemma StepOfRun(states: seq<State>, n: nat, i: nat)
    requires Run(states) && n + 1 < |states|
    ensures StepOk(states[n], states[n + 1], i)
  {
    hide Init, Next, StepOk;
    RunInv(states, n);
    NextOk(states[n], states[n + 1], i);
  }

  // ---- Records arrive in the order of their places ----

  /** The record of `a` is in an earlier place than that of `b`, or before it in the same batch. */
  predicate Earlier(s: State, a: nat, b: nat) {
    && a < |s.places| && b < |s.places| && s.places[a].InSlot? && s.places[b].InSlot?
    && (s.places[a].slot < s.places[b].slot || (s.places[a].slot == s.places[b].slot && a < b))
  }

  ghost predicate PlaceOrder(s: State) {
    forall p, q :: 0 <= p < q < |s.arrived| ==> Earlier(s, s.arrived[p], s.arrived[q])
  }

  ghost predicate SlotsStay(s: State, s': State) {
    && s'.arrived == s.arrived && |s.places| <= |s'.places|
    && forall e :: 0 <= e < |s.places| && s.places[e].InSlot? ==> s'.places[e] == s.places[e]
  }

  lemma MovesKeepSlots(s: State, s': State, t: Tid)
    requires Well(s) && (PublishAlloc(s, s', t) || LoseBatch(s, s', t) || PublishFlush(s, s', t))
    ensures SlotsStay(s, s')
  {
    assert ThreadOk(t, s.threads[t], s.events, s.places);
    hide Well;
  }

  lemma ThreadKeepsSlots(s: State, s': State, t: Tid)
    requires Well(s) && ThreadStep(s, s', t)
    ensures SlotsStay(s, s')
  {
    hide Well, Moved, SlotsStay, PublishAlloc, LoseBatch, PublishFlush;
    if PublishAlloc(s, s', t) || LoseBatch(s, s', t) || PublishFlush(s, s', t) {
      MovesKeepSlots(s, s', t);
    } else {
      hide StampAlloc, StampFree;
      if StampAlloc(s, s', t) {
        StampsKeepSlots(s, s', t, false);
      } else if stale :| StampFree(s, s', t, stale) {
        StampsKeepSlots(s, s', t, stale);
      } else {
        AppendsKeepSlots(s, s');
      }
    }
  }

  lemma StampsKeepSlots(s: State, s': State, t: Tid, stale: bool)
    requires StampAlloc(s, s', t) || StampFree(s, s', t, stale)
    ensures SlotsStay(s, s')
  {
    AppendsKeepSlots(s, s');
  }

  lemma AppendsKeepSlots(s: State, s': State)
    requires s'.arrived == s.arrived && s.places <= s'.places
    ensures SlotsStay(s, s')
  {
  }

  lemma ConsumeKeepsOrder(s: State, s': State)
    requires Reader(s.events, s.places, s.done, s.arrived, s.book) && Published(s.slots, s.events, s.places)
    requires PlaceOrder(s) && Consume(s, s')
    ensures PlaceOrder(s')
  {
    var r := s.slots[s.done].value;
    assert RecordOk(r, s.done, s.events, s.places);
    forall p, q | 0 <= p < q < |s'.arrived|
      ensures Earlier(s', s'.arrived[p], s'.arrived[q])
    {
      if q < |s.arrived| {
        assert Earlier(s, s.arrived[p], s.arrived[q]);
      } else if p < |s.arrived| {
        assert HasArrived(s.arrived, s.arrived[p]);
      }
    }
  }

  lemma {:induction false} RunKeepsPlaceOrder(states: seq<State>, n: nat)
    requires Run(states) && n < |states|
    ensures PlaceOrder(states[n])
    decreases n
  {
    hide Inv, Next;
    if n == 0 {
      assert states[0].arrived == [];
    } else {
      RunInv(states, n - 1);
      assert Next(states[n - 1], states[n]);
      hide Run, PlaceOrder;
      RunKeepsPlaceOrder(states, n - 1);
      StepKeepsOrder(states[n - 1], states[n]);
    }
  }

  lemma InvForOrder(s: State)
    requires Inv(s)
    ensures Well(s) && Reader(s.events, s.places, s.done, s.arrived, s.book) && Published(s.slots, s.events, s.places)
  {
    hide Owned, Truth, Separated, Threads, Published, Placed, Held, InOrder, Behind, Reader, Drained, Accounts;
  }

  lemma StepKeepsOrder(s: State, s': State)
    requires Inv(s) && Next(s, s') && PlaceOrder(s)
    ensures PlaceOrder(s')
  {
    hide Inv, Well, Reader, Published, PlaceOrder, ThreadStep, Consume;
    InvForOrder(s);
    if Consume(s, s') {
      ConsumeKeepsOrder(s, s');
    } else {
      if t :| ThreadStep(s, s', t) {
        ThreadKeepsSlots(s, s', t);
      }
      StayingKeepsOrder(s, s');
    }
  }

  lemma StayingKeepsOrder(s: State, s': State)
    requires PlaceOrder(s) && SlotsStay(s, s')
    ensures PlaceOrder(s')
  {
    forall p, q | 0 <= p < q < |s'.arrived|
      ensures Earlier(s', s'.arrived[p], s'.arrived[q])
    {
      assert Earlier(s, s.arrived[p], s.arrived[q]);
    }
  }

  // ---- Whole runs ----

  /** A place whose allocation has a number beyond those of an earlier state was waiting then, if it was reserved. */
  lemma {:induction false} WaitedBefore(states: seq<State>, k: nat, n: nat, e: nat, i: nat)
    requires Run(states) && k <= n < |states| && AllocAt(states[n], e, i)
    requires |states[k].events| <= e && i < |states[k].slots|
    ensures Waiting(states[k], i)
    decreases n
  {
    hide Run, Waiting, SlotOf;
    if k == n {
    } else {
      StepOfRun(states, n - 1, i);
      if AllocAt(states[n - 1], e, i) {
        WaitedBefore(states, k, n - 1, e, i);
      } else {
        DrawerWaits(states[n - 1], states[n], e, i);
        StillWaiting(states, k, n - 1, i);
      }
    }
  }

  lemma DrawerWaits(s: State, s': State, e: nat, i: nat)
    requires Draws(s, s', e, i)
    ensures Waiting(s, i) && e == |s.events|
  {
  }

  /** A place that waits now has waited ever since it was reserved. */
  lemma {:induction false} StillWaiting(states: seq<State>, k: nat, n: nat, i: nat)
    requires Run(states) && k <= n < |states| && Waiting(states[n], i) && i < |states[k].slots|
    ensures Waiting(states[k], i) && i < |states[n].slots|
    decreases n
  {
    hide Run, Waiting, AllocAt, Draws;
    if k == n {
    } else {
      GrowsAlong(states, k, n - 1);
      StepOfRun(states, n - 1, i);
      StillWaiting(states, k, n - 1, i);
    }
  }

  lemma {:induction false} GrowsAlong(states: seq<State>, k: nat, n: nat)
    requires Run(states) && k <= n < |states|
    ensures |states[k].slots| <= |states[n].slots| && |states[k].events| <= |states[n].events|
    decreases n
  {
    hide Run, Waiting, AllocAt, Draws;
    if k == n {
    } else {
      StepOfRun(states, n - 1, 0);
      GrowsAlong(states, k, n - 1);
    }
  }

  lemma NothingAtFirst(states: seq<State>, e: nat, j: nat)
    requires Run(states)
    ensures !AllocAt(states[0], e, j)
  {
  }

  /** The step in which an allocation drew its number. */
  lemma {:induction false} DrawOf(states: seq<State>, n: nat, e: nat, j: nat) returns (k: nat)
    requires Run(states) && n < |states| && AllocAt(states[n], e, j)
    ensures k < n && Draws(states[k], states[k + 1], e, j)
    decreases n
  {
    hide Run, AllocAt, Draws, Waiting;
    if n == 0 {
      NothingAtFirst(states, e, j);
    } else {
      StepOfRun(states, n - 1, j);
      if AllocAt(states[n - 1], e, j) {
        k := DrawOf(states, n - 1, e, j);
      } else {
        k := n - 1;
      }
    }
  }

  /** A place that waits goes on waiting or gets a number that was not drawn then. */
  lemma {:induction false} WaitsOrGets(states: seq<State>, k: nat, n: nat, i: nat) returns (a: nat)
    requires Run(states) && k <= n < |states| && Waiting(states[k], i)
    ensures Waiting(states[n], i) || (AllocAt(states[n], a, i) && |states[k].events| <= a)
    decreases n
  {
    hide Run, Waiting, SlotOf;
    if k == n {
      a := 0;
    } else {
      a := WaitsOrGets(states, k, n - 1, i);
      StepOfRun(states, n - 1, i);
      GrowsAlong(states, k, n - 1);
      if Waiting(states[n - 1], i) {
        if !Waiting(states[n], i) {
          a := |states[n - 1].events|;
          PlacesOfRun(states, n - 1);
          DrawnIsThere(states[n - 1], states[n], a, i);
        }
      } else {
        assert AllocAt(states[n], a, i);
      }
    }
  }

  lemma PlacesOfRun(states: seq<State>, n: nat)
    requires Run(states) && n < |states|
    ensures |states[n].places| == |states[n].events|
  {
    RunInv(states, n);
    hide Run;
  }

  lemma DrawnIsThere(s: State, s': State, e: nat, i: nat)
    requires |s.places| == |s.events| && Draws(s, s', e, i)
    ensures AllocAt(s', e, i)
  {
  }

  // ---- When allocations arrive in order ----

  lemma WritingIsAhead(s: State, e: nat, i: nat)
    requires Inv(s) && AllocAt(s, e, i) && s.places[e].Writing?
    ensures s.done <= i
  {
    assert PlaceOk(e, s.events[e], s.places[e], s.threads, s.slots);
    assert HeldOk(s.threads[s.places[e].t].pc, s.slots);
    assert Drained(s.slots, s.done);
    hide Inv;
  }

  /** The recorder has read an allocation whose place it has passed. */
  lemma PassedHasArrived(states: seq<State>, n: nat, e: nat, i: nat) returns (p: nat)
    requires Run(states) && n < |states| && AllocAt(states[n], e, i) && i < states[n].done
    ensures p < |states[n].arrived| && states[n].arrived[p] == e && states[n].places[e] == InSlot(i)
  {
    RunInv(states, n);
    var s := states[n];
    assert Reader(s.events, s.places, s.done, s.arrived, s.book);
    hide Run, Inv;
    if s.places[e].Writing? {
      WritingIsAhead(s, e, i);
    }
    assert HasArrived(s.arrived, e);
    p :| 0 <= p < |s.arrived| && s.arrived[p] == e;
  }

  lemma PassedDoesNotWait(states: seq<State>, n: nat, i: nat)
    requires Run(states) && n < |states| && i < states[n].done
    ensures !Waiting(states[n], i)
  {
    RunInv(states, n);
    var s := states[n];
    hide Run;
    assert forall t :: t in s.threads ==> HeldOk(s.threads[t].pc, s.slots);
    assert Drained(s.slots, s.done);
    hide Inv;
  }

  /** An arrived allocation is where the recorder has passed. */
  lemma ArrivedAt(states: seq<State>, n: nat, p: nat) returns (i: nat)
    requires Run(states) && n < |states| && p < |states[n].arrived| && AllocArrived(states[n], p)
    ensures AllocAt(states[n], states[n].arrived[p], i) && i < states[n].done
    ensures states[n].places[states[n].arrived[p]] == InSlot(i)
  {
    RunInv(states, n);
    var s := states[n];
    hide Run;
    assert HasArrived(s.arrived, s.arrived[p]);
    assert Reader(s.events, s.places, s.done, s.arrived, s.book);
    hide Inv;
    i := s.places[s.arrived[p]].slot;
  }

  lemma DrawerHasPlace(states: seq<State>, k: nat, e: nat, j: nat)
    requires Run(states) && k + 1 < |states| && Draws(states[k], states[k + 1], e, j)
    ensures j < |states[k].slots|
  {
    RunInv(states, k);
    var s := states[k];
    hide Run;
    var t :| StampAlloc(s, states[k + 1], t) && WaitsWith(s.threads[t].pc, j);
    assert HeldOk(s.threads[t].pc, s.slots);
  }

  /** Of two allocations that arrived out of order, the first was overtaken by the second. */
  lemma ShuffledWasOvertaken(states: seq<State>, n: nat, p: nat, q: nat) returns (k: nat, i: nat, j: nat)
    requires Run(states) && n < |states| && p < q < |states[n].arrived|
    requires AllocArrived(states[n], p) && AllocArrived(states[n], q) && states[n].arrived[p] >= states[n].arrived[q]
    ensures k < n && j < states[n].done && OvertakesAt(states, k, i, j)
  {
    hide Run, AllocArrived, AllocAt, Waiting, Draws;
    i := ArrivedAt(states, n, p);
    j := ArrivedAt(states, n, q);
    RunKeepsPlaceOrder(states, n);
    assert Earlier(states[n], states[n].arrived[p], states[n].arrived[q]);
    k := DrawOf(states, n, states[n].arrived[q], j);
    DrawerHasPlace(states, k, states[n].arrived[q], j);
    DrawerWaits(states[k], states[k + 1], states[n].arrived[q], j);
    WaitedBefore(states, k, n, states[n].arrived[p], i);
  }

  /** A place that was overtaken is read before the other, yet holds the younger allocation. */
  lemma OvertakenIsShuffled(states: seq<State>, n: nat, k: nat, i: nat, j: nat)
    requires Run(states) && n < |states| && k < n && j < states[n].done && OvertakesAt(states, k, i, j)
    ensures !AllocsAscend(states[n])
  {
    hide Run, AllocAt, Waiting, Draws;
    var s := states[n];
    var b := |states[k].events|;
    PlacesOfRun(states, k);
    DrawnIsThere(states[k], states[k + 1], b, j);
    AllocStays(states, k + 1, n, b, j);
    var a := WaitsOrGets(states, k, n, i);
    PassedDoesNotWait(states, n, i);
    var p := PassedHasArrived(states, n, a, i);
    var q := PassedHasArrived(states, n, b, j);
    RunKeepsPlaceOrder(states, n);
    if q <= p {
      NoLaterPlace(s, q, p);
    }
    HasArrivedAt(s, a, i, p);
    HasArrivedAt(s, b, j, q);
  }

  lemma NoLaterPlace(s: State, p: nat, q: nat)
    requires PlaceOrder(s) && p <= q < |s.arrived| && s.arrived[p] < |s.places| && s.arrived[q] < |s.places|
    requires s.places[s.arrived[p]].InSlot? && s.places[s.arrived[q]].InSlot?
    ensures s.places[s.arrived[p]].slot <= s.places[s.arrived[q]].slot
  {
    if p < q {
      assert Earlier(s, s.arrived[p], s.arrived[q]);
    }
  }

  lemma HasArrivedAt(s: State, e: nat, i: nat, p: nat)
    requires AllocAt(s, e, i) && p < |s.arrived| && s.arrived[p] == e
    ensures AllocArrived(s, p)
  {
  }

  lemma {:induction false} AllocStays(states: seq<State>, k: nat, n: nat, e: nat, i: nat)
    requires Run(states) && k <= n < |states| && AllocAt(states[k], e, i)
    ensures AllocAt(states[n], e, i)
    decreases n
  {
    hide Run, AllocAt, Draws, Waiting;
    if k == n {
    } else {
      AllocStays(states, k, n - 1, e, i);
      StepOfRun(states, n - 1, i);
    }
  }

  /**
   * Allocations have arrived in the order of their numbers if and only if no place that the recorder has read by now
   * ever drew its number while an earlier place was still waiting for its own.
   */
  lemma AllocsAscendIff(states: seq<State>, n: nat)
    requires Run(states) && n < |states|
    ensures AllocsAscend(states[n]) <==>
            !exists k: nat, i: nat, j: nat :: k < n && j < states[n].done && OvertakesAt(states, k, i, j)
  {
    hide Run, OvertakesAt, AllocArrived;
    if k: nat, i: nat, j: nat :| k < n && j < states[n].done && OvertakesAt(states, k, i, j) {
      OvertakenIsShuffled(states, n, k, i, j);
    } else if !AllocsAscend(states[n]) {
      var s := states[n];
      var p, q :| 0 <= p < q < |s.arrived| && AllocArrived(s, p) && AllocArrived(s, q) && s.arrived[p] >= s.arrived[q];
      var k, i, j := ShuffledWasOvertaken(states, n, p, q);
    }
  }
}
