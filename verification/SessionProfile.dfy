/**
 * What the recorder makes of the program's calls, over whole runs of a session: every entry of its book is a call of
 * the allocator, and the totals of every call site are those of the allocations that have arrived.
 */
module SessionProfile {
  import opened Bits
  import opened HeapBook
  import opened HeapTotals
  import opened HeapSession
  import opened SessionSurvivors

  // ---- Totals ----

  lemma {:induction false} SitesAppliedGrows(events: seq<Event>, events': seq<Event>, order: seq<nat>)
    requires events <= events' && InRange(events, order)
    ensures InRange(events', order) && SitesApplied(events', order) == SitesApplied(events, order)
    decreases |order|
  {
    if order == [] {
    } else {
      hide SitesApplied, Applied, SitesAfterAlloc, SitesTakeFree, ApplyOne;
      var n := |order| - 1;
      var before, i := order[..n], order[n];
      assert before + [i] == order && events'[i] == events[i];
      assert InRange(events, before);
      SitesAppliedGrows(events, events', before);
      AppliedGrows(events, events', before);
      SitesOneMore(events, before, i);
      SitesOneMore(events', before, i);
    }
  }

  lemma {:induction false} BatchCounts(events: seq<Event>, order: seq<nat>, entries: seq<FreeEntry>,
                                       places: seq<Place>, p: Place)
    requires InRange(events, order) && FreesAt(entries, events, places, p)
    ensures InRange(events, order + Numbers(FreeBatch(entries)))
    ensures SitesTakeAll(SitesApplied(events, order), Applied(events, order), entries)
         == SitesApplied(events, order + Numbers(FreeBatch(entries)))
    decreases |entries|
  {
    hide TakeFree, Applied, InRange, SitesApplied, SitesTakeFree, TakeAll;
    BatchApplies(events, order, entries, places, p);
    if entries == [] {
      assert order + Numbers(FreeBatch(entries)) == order;
    } else {
      var n := |entries| - 1;
      var front := order + Numbers(FreeBatch(entries[..n]));
      assert FreesAt(entries[..n], events, places, p);
      assert events[entries[n].seqno] == Free(entries[n].address);
      hide FreesAt, Numbers;
      BatchApplies(events, order, entries[..n], places, p);
      BatchCounts(events, order, entries[..n], places, p);
      SitesOneMore(events, front, entries[n].seqno);
      NumbersGrow(entries, n);
      assert order + Numbers(FreeBatch(entries)) == front + [entries[n].seqno];
    }
  }

  lemma RecordCounts(events: seq<Event>, order: seq<nat>, r: Record, j: nat, places: seq<Place>)
    requires InRange(events, order) && RecordOk(r, j, events, places)
    ensures InRange(events, order + Numbers(r))
    ensures Counted(SitesApplied(events, order), Applied(events, order), r) == SitesApplied(events, order + Numbers(r))
  {
    hide SitesApplied, Applied, SitesAfterAlloc, SitesTakeFree, SitesTakeAll;
    match r
    case AllocRecord(i, _, _, _) =>
      SitesOneMore(events, order, i);
    case FreeBatch(entries) =>
      BatchCounts(events, order, entries, places, InSlot(j));
  }

  /** The totals are those of what has arrived, in the order in which it arrived. */
  ghost predicate SitesOk(s: State) {
    InRange(s.events, s.arrived) && s.sites == SitesApplied(s.events, s.arrived)
  }

  lemma ConsumeCounts(s: State, s': State)
    requires Inv(s) && SitesOk(s) && Consume(s, s')
    ensures SitesOk(s')
  {
    var r := s.slots[s.done].value;
    assert RecordOk(r, s.done, s.events, s.places);
    InvBook(s);
    hide Inv, SitesApplied, Applied, Arrival, Counted, Processed, Numbers, RecordOk;
    RecordCounts(s.events, s.arrived, r, s.done, s.places);
  }

  /** The recorder sees nothing of the step, and what has happened stays. */
  ghost predicate Unseen(s: State, s': State) {
    s'.sites == s.sites && s'.arrived == s.arrived && s.events <= s'.events
  }

  lemma StampCountsNothing(s: State, s': State, t: Tid, stale: bool)
    requires StampAlloc(s, s', t) || StampFree(s, s', t, stale)
    ensures Unseen(s, s')
  {
  }

  lemma ThreadCountsNothing(s: State, s': State, t: Tid)
    requires ThreadStep(s, s', t)
    ensures Unseen(s, s')
  {
    hide *;
    ThreadStepIs(s, s', t);
    if StampAlloc(s, s', t) {
      StampCountsNothing(s, s', t, false);
    } else if stale :| StampFree(s, s', t, stale) {
      StampCountsNothing(s, s', t, stale);
    } else if ProgramMoves(s, s', t) {
      ProgramCountsNothing(s, s', t);
    } else {
      ShimCountsNothing(s, s', t);
    }
  }

  ghost predicate ProgramMoves(s: State, s': State, t: Tid) {
    || (exists x :: MallocUnsampled(s, s', t, x))
    || (exists x, size, site :: MallocSampled(s, s', t, x, size, site))
    || (exists x, after :: StartFree(s, s', t, x, after))
    || ActFree(s, s', t)
    || (exists y, sampled, size, site :: ActRealloc(s, s', t, y, sampled, size, site))
    || FailRealloc(s, s', t)
  }

  ghost predicate ShimMoves(s: State, s': State, t: Tid) {
    || ReserveAlloc(s, s', t) || SkipRecord(s, s', t) || PublishAlloc(s, s', t)
    || ReserveFlush(s, s', t) || LoseBatch(s, s', t) || PublishFlush(s, s', t)
  }

  lemma ThreadStepIs(s: State, s': State, t: Tid)
    requires ThreadStep(s, s', t)
    ensures StampAlloc(s, s', t) || (exists stale :: StampFree(s, s', t, stale)) || ProgramMoves(s, s', t)
         || ShimMoves(s, s', t)
  {
    hide MallocUnsampled, MallocSampled, ReserveAlloc, SkipRecord, StampAlloc, PublishAlloc, StartFree, StampFree,
      ReserveFlush, LoseBatch, PublishFlush, ActFree, ActRealloc, FailRealloc;
  }

  lemma ProgramCountsNothing(s: State, s': State, t: Tid)
    requires ProgramMoves(s, s', t)
    ensures Unseen(s, s')
  {
    hide Put, Unseen;
    SameIsUnseen(s, s');
  }

  lemma ShimCountsNothing(s: State, s': State, t: Tid)
    requires ShimMoves(s, s', t)
    ensures Unseen(s, s')
  {
    hide Put, Moved, Unseen;
    SameIsUnseen(s, s');
  }

  lemma SameIsUnseen(s: State, s': State)
    requires s'.sites == s.sites && s'.arrived == s.arrived && s'.events == s.events
    ensures Unseen(s, s')
  {
  }

  lemma NextCounts(s: State, s': State)
    requires Inv(s) && SitesOk(s) && Next(s, s')
    ensures SitesOk(s')
  {
    hide Inv, SitesApplied, Consume, ThreadStep;
    if Consume(s, s') {
      ConsumeCounts(s, s');
    } else if t :| ThreadStep(s, s', t) {
      ThreadCountsNothing(s, s', t);
      SitesAppliedGrows(s.events, s'.events, s.arrived);
    }
  }

  lemma {:induction false} RunSites(states: seq<State>, n: nat)
    requires Run(states) && n < |states|
    ensures SitesOk(states[n])
    decreases n
  {
    hide Next, Inv;
    if n == 0 {
    } else {
      RunSites(states, n - 1);
      RunInv(states, n - 1);
      NextCounts(states[n - 1], states[n]);
    }
  }

  /**
   * In every state of every run, whatever is pending or lost: what a site has allocated, in bytes and in number, is the
   * sum over its allocations that have arrived, and what it has freed the sum over those of them that are no longer in
   * the book.
   */
  lemma TotalsAreArrivals(states: seq<State>, n: nat, p: Site)
    requires Run(states) && n < |states|
    ensures var s := states[n];
      InRange(s.events, s.arrived) && TotalsAt(s.sites, s.events, s.arrived, s.book, p)
  {
    hide Run, Inv, TotalsAt, SitesApplied, Applied, Arrival;
    RunSites(states, n);
    RunInv(states, n);
    InvBook(states[n]);
    TotalsAreSums(states[n].events, states[n].arrived, p);
  }

  // ---- Calls ----

  /** In this step the allocator returns the block at `x` to a call that the sampler has chosen. */
  ghost predicate Makes(s: State, s': State, t: Tid, x: U64, c: Call) {
    MallocSampled(s, s', t, x, c.size, c.site) || ActRealloc(s, s', t, x, true, c.size, c.site)
  }

  predicate MadeBy(s: State, x: U64, c: Call) {
    x in s.blocks && s.blocks[x].call == c
  }

  lemma CallMakes(s: State, s': State, t: Tid, x: U64, c: Call)
    requires Makes(s, s', t, x, c)
    ensures MadeBy(s', x, c)
  {
  }

  lemma EndKeepsOthers(s: State, s': State, t: Tid, x: U64, c: Call)
    requires MadeBy(s, x, c) && !GivenUp(s, s', x)
    requires ActFree(s, s', t) || exists y, sampled, size, site :: ActRealloc(s, s', t, y, sampled, size, site)
    ensures MadeBy(s', x, c)
  {
    if s.threads[t].pc.x == x {
      assert GivesUp(s, s', t, x);
    }
  }

  lemma NewBlockIsElsewhere(s: State, s': State, t: Tid, y: U64, x: U64, c: Call)
    requires MadeBy(s, x, c)
    requires MallocUnsampled(s, s', t, y) || exists size, site :: MallocSampled(s, s', t, y, size, site)
    ensures MadeBy(s', x, c)
  {
  }

  lemma ShimKeepsCall(s: State, s': State, t: Tid, x: U64, c: Call)
    requires MadeBy(s, x, c)
    requires
      || SkipRecord(s, s', t) || StampAlloc(s, s', t) || PublishAlloc(s, s', t) || FailRealloc(s, s', t)
      || (exists y, after :: StartFree(s, s', t, y, after)) || exists stale :: StampFree(s, s', t, stale)
    ensures MadeBy(s', x, c)
  {
    hide Put;
  }

  lemma StepKeepsCall(s: State, s': State, t: Tid, x: U64, c: Call)
    requires MadeBy(s, x, c) && !GivenUp(s, s', x) && ThreadStep(s, s', t)
    ensures MadeBy(s', x, c)
  {
    hide MadeBy, GivenUp, MallocUnsampled, MallocSampled, SkipRecord, StampAlloc, PublishAlloc, StartFree, StampFree,
      ActFree, ActRealloc, FailRealloc, Moved, Put;
    if ActFree(s, s', t) {
      EndKeepsOthers(s, s', t, x, c);
    } else if y, sampled, size, site :| ActRealloc(s, s', t, y, sampled, size, site) {
      EndKeepsOthers(s, s', t, x, c);
    } else if y :| MallocUnsampled(s, s', t, y) {
      NewBlockIsElsewhere(s, s', t, y, x, c);
    } else if y, size, site :| MallocSampled(s, s', t, y, size, site) {
      NewBlockIsElsewhere(s, s', t, y, x, c);
    } else if ReserveAlloc(s, s', t) || ReserveFlush(s, s', t) || LoseBatch(s, s', t) || PublishFlush(s, s', t) {
      SameBlocks(s, s', x, c);
    } else {
      ShimKeepsCall(s, s', t, x, c);
    }
  }

  lemma {:induction false} CallIsKept(states: seq<State>, m: nat, n: nat, x: U64, c: Call)
    requires Run(states) && m <= n < |states| && MadeBy(states[m], x, c) && KeptSince(states, m, n, x)
    ensures MadeBy(states[n], x, c)
    decreases n
  {
    hide MadeBy, GivenUp, ThreadStep, Numbers, Processed, Counted;
    if m == n {
    } else {
      CallIsKept(states, m, n - 1, x, c);
      var s, s' := states[n - 1], states[n];
      assert Next(s, s') && !GivenUp(s, s', x);
      hide Run, KeptSince;
      if t :| ThreadStep(s, s', t) {
        StepKeepsCall(s, s', t, x, c);
      } else {
        SameBlocks(s, s', x, c);
      }
    }
  }

  lemma SameBlocks(s: State, s': State, x: U64, c: Call)
    requires MadeBy(s, x, c) && s'.blocks == s.blocks
    ensures MadeBy(s', x, c)
  {
  }

  /**
   * From the call to the book: a block that was made by a call of the allocator with some weight and stack, that was
   * recorded, and that was neither given up nor queued to be freed since, stands in the book as that weight under that
   * stack, as soon as the recorder has seen everything that happened at its address.
   */
  lemma CallIsBooked(states: seq<State>, k: nat, n: nat, t: Tid, x: U64, c: Call)
    requires Run(states) && k < n < |states| && Makes(states[k], states[k + 1], t, x, c)
    requires KeptSince(states, k + 1, n, x) && Recorded(states[n].blocks, x).Some? && AllSeen(states[n], x)
    ensures var s := states[n];
      x in s.book && s.book[x] == [LiveAlloc(Recorded(s.blocks, x).value, c.size, c.site)]
  {
    hide Run, AllSeen, KeptSince, Makes;
    CallMakes(states[k], states[k + 1], t, x, c);
    CallIsKept(states, k + 1, n, x, c);
    BookIsExact(states, n, x);
  }
}
