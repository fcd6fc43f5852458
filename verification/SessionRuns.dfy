/**
 * Two runs of a session, step by step: one in which a failed `realloc` makes the recorder lose sight of a live
 * block, and one in which two allocations arrive out of order.
 */
module SessionRuns {
  import opened Bits
  import opened HeapBook
  import opened HeapSession
  import opened SessionOrder
  import opened SessionSurvivors

  const X: U64 := 4096
  const Y: U64 := 8192
  const SITE_X: Site := [0x40_1000, 0x40_2000]
  const SITE_Y: Site := [0x40_3000]

  lemma Extended(states: seq<State>, s: State, t: Tid) returns (longer: seq<State>)
    requires Run(states) && (ThreadStep(states[|states| - 1], s, t) || Consume(states[|states| - 1], s))
    ensures Run(longer) && longer != [] && longer[|longer| - 1] == s
  {
    longer := states + [s];
    assert Next(states[|states| - 1], s);
    hide Next;
  }

  /** The state after the recorder has taken the oldest record. */
  function Read(s: State): State
    requires s.done < |s.slots| && s.slots[s.done].Some?
  {
    var r := s.slots[s.done].value;
    s.(done := s.done + 1, arrived := s.arrived + Numbers(r), book := Processed(s.book, r),
       sites := Counted(s.sites, s.book, r))
  }

  // ---- A `realloc` fails ----

  // One thread. It frees a block `Y` that it had before, which starts a batch; it allocates `X`, which is recorded;
  // and it calls `realloc` on `X` when the batch has become stale.

  const FREE_Y: FreeEntry := FreeEntry(0, Y)
  const FREE_X: FreeEntry := FreeEntry(2, X)
  const CALL_X: Call := Call(64, SITE_X)
  const ALLOC_X: Record := AllocRecord(1, X, 64, SITE_X)
  const BOTH: seq<FreeEntry> := [FREE_Y, FREE_X]

  /** One thread, before the recorder has looked. */
  function Scene(events: seq<Event>, places: seq<Place>, blocks: map<U64, Block>, thread: Thread,
                 slots: seq<Option<Record>>): State {
    State(events, places, blocks, map[0 := thread], slots, 0, [], map[], map[], true)
  }

  function Start(): State {
    Scene([], [], map[Y := Block(None, false, None, NOT_SAMPLED)], Thread(Idle, []), [])
  }

  function FreeingY(): State {
    Scene([], [], map[Y := Block(None, false, Some(0), NOT_SAMPLED)], Thread(Freeing(Y, RealFree), []), [])
  }

  function PendingY(): State {
    Scene([Free(Y)], [Pending(0)], map[Y := Block(None, true, Some(0), NOT_SAMPLED)],
          Thread(Acting(Y, RealFree), [FREE_Y]), [])
  }

  function FreedY(): State {
    Scene([Free(Y)], [Pending(0)], map[], Thread(Idle, [FREE_Y]), [])
  }

  function Sampled(): State {
    Scene([Free(Y)], [Pending(0)], map[X := Block(None, false, Some(0), CALL_X)],
          Thread(Allocated(X, 64, SITE_X), [FREE_Y]), [])
  }

  function HasPlace(): State {
    Scene([Free(Y)], [Pending(0)], map[X := Block(None, false, Some(0), CALL_X)],
          Thread(Reserved(X, 64, SITE_X, 0), [FREE_Y]),
          [None])
  }

  function HasNumber(): State {
    Scene([Free(Y), Alloc(X, 64, SITE_X)], [Pending(0), Writing(0, 0)],
          map[X := Block(Some(1), false, Some(0), CALL_X)],
          Thread(Stamped(X, 0, ALLOC_X), [FREE_Y]), [None])
  }

  function Returned(): State {
    Scene([Free(Y), Alloc(X, 64, SITE_X)], [Pending(0), InSlot(0)], map[X := Block(Some(1), false, None, CALL_X)],
          Thread(Idle, [FREE_Y]), [Some(ALLOC_X)])
  }

  function Resizing(): State {
    Scene([Free(Y), Alloc(X, 64, SITE_X)], [Pending(0), InSlot(0)], map[X := Block(Some(1), false, Some(0), CALL_X)],
          Thread(Freeing(X, RealRealloc), [FREE_Y]), [Some(ALLOC_X)])
  }

  function Stale(): State {
    Scene([Free(Y), Alloc(X, 64, SITE_X), Free(X)], [Pending(0), InSlot(0), Pending(0)],
          map[X := Block(Some(1), true, Some(0), CALL_X)], Thread(Flushing(X, RealRealloc), BOTH), [Some(ALLOC_X)])
  }

  function BatchHasPlace(): State {
    Scene([Free(Y), Alloc(X, 64, SITE_X), Free(X)], [Pending(0), InSlot(0), Pending(0)],
          map[X := Block(Some(1), true, Some(0), CALL_X)], Thread(Filling(X, RealRealloc, 1), BOTH),
          [Some(ALLOC_X), None])
  }

  function Flushed(): State {
    Scene([Free(Y), Alloc(X, 64, SITE_X), Free(X)], [InSlot(1), InSlot(0), InSlot(1)],
          map[X := Block(Some(1), true, Some(0), CALL_X)], Thread(Acting(X, RealRealloc), []),
          [Some(ALLOC_X), Some(FreeBatch(BOTH))])
  }

  function Failed(): State {
    Scene([Free(Y), Alloc(X, 64, SITE_X), Free(X)], [InSlot(1), InSlot(0), InSlot(1)],
          map[X := Block(Some(1), true, None, CALL_X)], Thread(Idle, []), [Some(ALLOC_X), Some(FreeBatch(BOTH))])
  }

  function ReadOnce(): State {
    Read(Failed())
  }

  function ReadTwice(): State {
    Read(ReadOnce())
  }

  lemma StepsToFreed()
    ensures StartFree(Start(), FreeingY(), 0, Y, RealFree)
    ensures StampFree(FreeingY(), PendingY(), 0, false)
    ensures ActFree(PendingY(), FreedY(), 0)
  {
    assert [] + [FREE_Y] == [FREE_Y];
    assert PendingY().blocks - {Y} == map[];
  }

  lemma StepsToNumber()
    ensures MallocSampled(FreedY(), Sampled(), 0, X, 64, SITE_X)
    ensures ReserveAlloc(Sampled(), HasPlace(), 0)
    ensures StampAlloc(HasPlace(), HasNumber(), 0)
  {
    assert [Free(Y)] + [Alloc(X, 64, SITE_X)] == [Free(Y), Alloc(X, 64, SITE_X)];
    assert [Pending(0)] + [Writing(0, 0)] == [Pending(0), Writing(0, 0)];
  }

  lemma StepsToResizing()
    ensures PublishAlloc(HasNumber(), Returned(), 0)
    ensures StartFree(Returned(), Resizing(), 0, X, RealRealloc)
  {
    assert [None][0 := Some(ALLOC_X)] == [Some(ALLOC_X)];
    assert [Pending(0), Writing(0, 0)][1 := InSlot(0)] == [Pending(0), InSlot(0)];
  }

  lemma StepToStale()
    ensures StampFree(Resizing(), Stale(), 0, true)
  {
    assert [Free(Y), Alloc(X, 64, SITE_X)] + [Free(X)] == [Free(Y), Alloc(X, 64, SITE_X), Free(X)];
    assert [Pending(0), InSlot(0)] + [Pending(0)] == [Pending(0), InSlot(0), Pending(0)];
    assert [FREE_Y] + [FREE_X] == BOTH;
  }

  lemma StepToBatchPlace()
    ensures ReserveFlush(Stale(), BatchHasPlace(), 0)
  {
    assert [Some(ALLOC_X)] + [None] == [Some(ALLOC_X), None];
  }

  lemma BatchMentions(i: nat)
    ensures Mentions(BOTH, i) <==> i == 0 || i == 2
  {
    assert BOTH[0].seqno == 0 && BOTH[1].seqno == 2;
  }

  lemma StepToFlushed()
    ensures PublishFlush(BatchHasPlace(), Flushed(), 0)
  {
    BatchMentions(0);
    BatchMentions(1);
    BatchMentions(2);
    hide Mentions;
    var r: Option<Record> := Some(FreeBatch(BOTH));
    assert [Some(ALLOC_X), None][1 := r] == [Some(ALLOC_X), r];
    assert Moved([Pending(0), InSlot(0), Pending(0)], BOTH, InSlot(1)) == [InSlot(1), InSlot(0), InSlot(1)];
  }

  lemma StepToFailed()
    ensures FailRealloc(Flushed(), Failed(), 0)
  {
  }

  lemma StepsToRead()
    ensures Consume(Failed(), ReadOnce()) && Consume(ReadOnce(), ReadTwice())
  {
    hide Numbers, Processed, Counted;
  }

  lemma StartIsRun()
    ensures Run([Start()])
  {
  }

  lemma ThreadSteps()
    ensures ThreadStep(Start(), FreeingY(), 0) && ThreadStep(FreeingY(), PendingY(), 0)
    ensures ThreadStep(PendingY(), FreedY(), 0) && ThreadStep(FreedY(), Sampled(), 0)
    ensures ThreadStep(Sampled(), HasPlace(), 0) && ThreadStep(HasPlace(), HasNumber(), 0)
    ensures ThreadStep(HasNumber(), Returned(), 0) && ThreadStep(Returned(), Resizing(), 0)
    ensures ThreadStep(Resizing(), Stale(), 0) && ThreadStep(Stale(), BatchHasPlace(), 0)
    ensures ThreadStep(BatchHasPlace(), Flushed(), 0) && ThreadStep(Flushed(), Failed(), 0)
  {
    hide Start, FreeingY, PendingY, FreedY, Sampled, HasPlace, HasNumber, Returned, Resizing, Stale, BatchHasPlace,
      Flushed, Failed, MallocSampled, ReserveAlloc, StampAlloc, PublishAlloc, StartFree, StampFree, ReserveFlush,
      PublishFlush, ActFree, FailRealloc;
    StepsToFreed();
    StepsToNumber();
    StepsToResizing();
    StepToStale();
    StepToBatchPlace();
    StepToFlushed();
    StepToFailed();
  }

  lemma RunToReturned() returns (states: seq<State>)
    ensures Run(states) && states != [] && states[|states| - 1] == Returned()
  {
    hide *;
    StartIsRun();
    ThreadSteps();
    states := Extended([Start()], FreeingY(), 0);
    states := Extended(states, PendingY(), 0);
    states := Extended(states, FreedY(), 0);
    states := Extended(states, Sampled(), 0);
    states := Extended(states, HasPlace(), 0);
    states := Extended(states, HasNumber(), 0);
    states := Extended(states, Returned(), 0);
  }

  lemma RunToFailed() returns (states: seq<State>)
    ensures Run(states) && states != [] && states[|states| - 1] == Failed()
  {
    hide *;
    ThreadSteps();
    states := RunToReturned();
    states := Extended(states, Resizing(), 0);
    states := Extended(states, Stale(), 0);
    states := Extended(states, BatchHasPlace(), 0);
    states := Extended(states, Flushed(), 0);
    states := Extended(states, Failed(), 0);
  }

  lemma AllIsRead()
    ensures CaughtUp(ReadTwice()) && Survivor(ReadTwice(), X)
  {
    hide Numbers, Processed, Counted;
  }

  /**
   * The run ends with everything settled, the recorded block still there and the book without it; so by the exact
   * condition a `realloc` of that block has failed in it.
   */
  lemma FailedReallocIsMissed() returns (states: seq<State>)
    ensures Run(states) && states != []
    ensures var s := states[|states| - 1];
      CaughtUp(s) && Survivor(s, X) && X !in s.book && OutlivedRealloc(states, |states| - 1, X)
  {
    hide *;
    states := RunToFailed();
    StepsToRead();
    AllIsRead();
    states := Extended(states, ReadOnce(), 0);
    states := Extended(states, ReadTwice(), 0);
    SettledAt(states, |states| - 1, X);
  }

  // ---- Two allocations arrive out of order ----

  // Thread 0 allocates `X` and reserves a place, thread 1 allocates `Y` and reserves the next one, and thread 1 draws
  // its number first.

  const OF_X: Call := Call(16, SITE_X)
  const OF_Y: Call := Call(32, SITE_Y)
  const FIRST: Event := Alloc(Y, 32, SITE_Y)
  const SECOND: Event := Alloc(X, 16, SITE_X)
  const RECORD_X: Record := AllocRecord(1, X, 16, SITE_X)
  const RECORD_Y: Record := AllocRecord(0, Y, 32, SITE_Y)

  /** The blocks `X` of thread 0 and `Y` of thread 1. */
  function Pair(events: seq<Event>, places: seq<Place>, ofX: Block, ofY: Block, pc0: Pc, pc1: Pc,
                slots: seq<Option<Record>>): State {
    State(events, places, map[X := ofX, Y := ofY], map[0 := Thread(pc0, []), 1 := Thread(pc1, [])], slots,
          0, [], map[], map[], true)
  }

  function Apart(): State {
    Pair([], [], Block(None, false, None, OF_X), Block(None, false, None, OF_Y), Idle, Idle, []).(blocks := map[])
  }

  function OneAllocated(): State {
    Apart().(blocks := map[X := Block(None, false, Some(0), OF_X)],
             threads := map[0 := Thread(Allocated(X, 16, SITE_X), []), 1 := Thread(Idle, [])])
  }

  function BothAllocated(): State {
    Pair([], [], Block(None, false, Some(0), OF_X), Block(None, false, Some(1), OF_Y), Allocated(X, 16, SITE_X),
         Allocated(Y, 32, SITE_Y),
         [])
  }

  function FirstPlace(): State {
    Pair([], [], Block(None, false, Some(0), OF_X), Block(None, false, Some(1), OF_Y), Reserved(X, 16, SITE_X, 0),
         Allocated(Y, 32, SITE_Y), [None])
  }

  function BothPlaces(): State {
    Pair([], [], Block(None, false, Some(0), OF_X), Block(None, false, Some(1), OF_Y), Reserved(X, 16, SITE_X, 0),
         Reserved(Y, 32, SITE_Y, 1), [None, None])
  }

  function SecondOvertakes(): State {
    Pair([FIRST], [Writing(1, 1)], Block(None, false, Some(0), OF_X), Block(Some(0), false, Some(1), OF_Y),
         Reserved(X, 16, SITE_X, 0), Stamped(Y, 1, RECORD_Y), [None, None])
  }

  function BothNumbers(): State {
    Pair([FIRST, SECOND], [Writing(1, 1), Writing(0, 0)], Block(Some(1), false, Some(0), OF_X),
         Block(Some(0), false, Some(1), OF_Y),
         Stamped(X, 0, RECORD_X), Stamped(Y, 1, RECORD_Y), [None, None])
  }

  function FirstSent(): State {
    Pair([FIRST, SECOND], [Writing(1, 1), InSlot(0)], Block(Some(1), false, None, OF_X),
         Block(Some(0), false, Some(1), OF_Y),
         Idle, Stamped(Y, 1, RECORD_Y), [Some(RECORD_X), None])
  }

  function BothSent(): State {
    Pair([FIRST, SECOND], [InSlot(1), InSlot(0)], Block(Some(1), false, None, OF_X), Block(Some(0), false, None, OF_Y),
         Idle, Idle, [Some(RECORD_X), Some(RECORD_Y)])
  }

  function FirstRead(): State {
    Read(BothSent())
  }

  function BothRead(): State {
    Read(FirstRead())
  }

  lemma AllocatingSteps()
    ensures MallocSampled(Apart(), OneAllocated(), 0, X, 16, SITE_X)
    ensures MallocSampled(OneAllocated(), BothAllocated(), 1, Y, 32, SITE_Y)
  {
  }

  lemma ReservingSteps()
    ensures ReserveAlloc(BothAllocated(), FirstPlace(), 0) && ReserveAlloc(FirstPlace(), BothPlaces(), 1)
  {
    var none: Option<Record> := None;
    assert [none] + [none] == [none, none];
  }

  lemma NumberSteps()
    ensures StampAlloc(BothPlaces(), SecondOvertakes(), 1) && StampAlloc(SecondOvertakes(), BothNumbers(), 0)
  {
    assert [FIRST] + [SECOND] == [FIRST, SECOND];
    assert [Writing(1, 1)] + [Writing(0, 0)] == [Writing(1, 1), Writing(0, 0)];
  }

  lemma SendingSteps()
    ensures PublishAlloc(BothNumbers(), FirstSent(), 0) && PublishAlloc(FirstSent(), BothSent(), 1)
  {
    assert [Writing(1, 1), Writing(0, 0)][1 := InSlot(0)] == [Writing(1, 1), InSlot(0)];
    assert [Writing(1, 1), InSlot(0)][0 := InSlot(1)] == [InSlot(1), InSlot(0)];
    assert [None, None][0 := Some(RECORD_X)] == [Some(RECORD_X), None];
    assert [Some(RECORD_X), None][1 := Some(RECORD_Y)] == [Some(RECORD_X), Some(RECORD_Y)];
  }

  lemma ReadingSteps()
    ensures Consume(BothSent(), FirstRead()) && Consume(FirstRead(), BothRead())
    ensures CaughtUp(BothRead()) && BothRead().arrived == [1, 0]
  {
    assert Numbers(RECORD_X) == [1] && Numbers(RECORD_Y) == [0];
    assert [] + [1] == [1] && [1] + [0] == [1, 0];
    hide Numbers, Processed, Counted;
  }

  lemma PairSteps()
    ensures ThreadStep(Apart(), OneAllocated(), 0) && ThreadStep(OneAllocated(), BothAllocated(), 1)
    ensures ThreadStep(BothAllocated(), FirstPlace(), 0) && ThreadStep(FirstPlace(), BothPlaces(), 1)
    ensures ThreadStep(BothPlaces(), SecondOvertakes(), 1) && ThreadStep(SecondOvertakes(), BothNumbers(), 0)
    ensures ThreadStep(BothNumbers(), FirstSent(), 0) && ThreadStep(FirstSent(), BothSent(), 1)
  {
    hide Apart, OneAllocated, BothAllocated, FirstPlace, BothPlaces, SecondOvertakes, BothNumbers, FirstSent, BothSent,
      MallocSampled, ReserveAlloc, StampAlloc, PublishAlloc;
    AllocatingSteps();
    ReservingSteps();
    NumberSteps();
    SendingSteps();
  }

  lemma ApartIsRun()
    ensures Run([Apart()])
  {
  }

  lemma RunToBothSent() returns (states: seq<State>)
    ensures Run(states) && states != [] && states[|states| - 1] == BothSent()
  {
    hide *;
    ApartIsRun();
    PairSteps();
    states := Extended([Apart()], OneAllocated(), 0);
    states := Extended(states, BothAllocated(), 1);
    states := Extended(states, FirstPlace(), 0);
    states := Extended(states, BothPlaces(), 1);
    states := Extended(states, SecondOvertakes(), 1);
    states := Extended(states, BothNumbers(), 0);
    states := Extended(states, FirstSent(), 0);
    states := Extended(states, BothSent(), 1);
  }

  lemma TwoOutOfOrder(s: State)
    requires s.arrived == [1, 0] && s.events == [FIRST, SECOND]
    ensures !AllocsAscend(s)
  {
    assert AllocArrived(s, 0) && AllocArrived(s, 1);
  }

  lemma EventsAtEnd()
    ensures BothRead().events == [FIRST, SECOND]
  {
    hide Numbers, Processed, Counted;
  }

  /** A run in which allocations arrive in the order 1, 0, so the order of their numbers is not kept. */
  lemma AllocsCanArriveShuffled() returns (states: seq<State>)
    ensures Run(states) && states != []
    ensures var s := states[|states| - 1]; CaughtUp(s) && s.arrived == [1, 0] && !AllocsAscend(s)
  {
    hide *;
    states := RunToBothSent();
    ReadingSteps();
    EventsAtEnd();
    states := Extended(states, FirstRead(), 0);
    states := Extended(states, BothRead(), 0);
    TwoOutOfOrder(BothRead());
  }
}
