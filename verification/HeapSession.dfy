/**
 * One attach session of the heap preload: any number of threads allocate, free and reallocate, stamp what they
 * do with one shared sequence counter, and send records through the ring to the recorder's book. Allocation
 * records go out one by one; frees are batched by each thread and go out late.
 *
 * The ring appears here as the queue that module RingProtocol proves it to be: places are reserved in order,
 * filled later by whoever reserved them, and taken from the front once filled.
 */
module HeapSession {
  import opened Bits
  import opened HeapBook
  import RingProtocol

  type Tid = nat

  const FREE_BATCH_CAP: nat := 128

  datatype FreeEntry = FreeEntry(seqno: nat, address: U64)

  datatype Record =
    | AllocRecord(seqno: nat, address: U64, size: nat, site: Site)
    | FreeBatch(entries: seq<FreeEntry>)

  /** What the program called once the free is queued: `free`, or `realloc`. */
  datatype After = RealFree | RealRealloc

  /** Where a thread stands in a shim. */
  datatype Pc =
    | Idle
    | Allocated(x: U64, size: nat, site: Site)              // sampled, about to reserve a place for the record
    | Reserved(x: U64, size: nat, site: Site, slot: nat)    // about to draw the sequence number
    | Stamped(x: U64, slot: nat, record: Record)            // about to publish the record
    | Freeing(x: U64, after: After)                         // about to draw the number and queue the free
    | Flushing(x: U64, after: After)                        // about to reserve a place for the batch
    | Filling(x: U64, after: After, slot: nat)              // about to publish the batch
    | Acting(x: U64, after: After)                          // about to call the real free or realloc

  datatype Thread = Thread(pc: Pc, batch: seq<FreeEntry>)

  /**
   * A block of the allocator: the number of its allocation record if it has one, whether a free of it has been
   * stamped, the thread whose shim is working on it, and what the call that made it was sampled with.
   */
  datatype Block = Block(recorded: Option<nat>, freed: bool, owner: Option<Tid>, call: Call)

  /** The weight that the sampler gave a call of the allocator, and the stack it was made from. */
  datatype Call = Call(size: nat, site: Site)

  const NOT_SAMPLED: Call := Call(0, [])

  /** Where the record of an event is. */
  datatype Place = Writing(t: Tid, slot: nat) | Pending(t: Tid) | InSlot(slot: nat) | Dropped | Discarded

  datatype State = State(
    events: seq<Event>,             // by sequence number
    places: seq<Place>,             // of each event
    blocks: map<U64, Block>,
    threads: map<Tid, Thread>,
    slots: seq<Option<Record>>,     // every place ever reserved in the ring
    done: nat,                      // how many of them the recorder has taken
    arrived: seq<nat>,              // the sequence numbers the recorder has seen, in its order
    book: Live,
    sites: Sites,                   // the recorder's totals of every call site
    attached: bool)

  // ---- The steps ----

  function Put(s: State, t: Tid, pc: Pc): map<Tid, Thread>
    requires t in s.threads
  {
    s.threads[t := s.threads[t].(pc := pc)]
  }

  predicate Mentions(entries: seq<FreeEntry>, i: nat) {
    exists k :: 0 <= k < |entries| && entries[k].seqno == i
  }

  /** The entries of a batch all move to one place. */
  function Moved(places: seq<Place>, entries: seq<FreeEntry>, to: Place): (r: seq<Place>)
    ensures |r| == |places|
    ensures forall i :: 0 <= i < |places| ==> r[i] == if Mentions(entries, i) then to else places[i]
  {
    seq(|places|, i requires 0 <= i < |places| => if Mentions(entries, i) then to else places[i])
  }

  /** An allocation that the sampler passes over leaves no trace. */
  ghost predicate MallocUnsampled(s: State, s': State, t: Tid, x: U64) {
    && t in s.threads && s.threads[t].pc.Idle? && s.attached && x !in s.blocks
    && s' == s.(blocks := s.blocks[x := Block(None, false, None, NOT_SAMPLED)])
  }

  ghost predicate MallocSampled(s: State, s': State, t: Tid, x: U64, size: nat, site: Site) {
    && t in s.threads && s.threads[t].pc.Idle? && s.attached && x !in s.blocks
    && s' == s.(blocks := s.blocks[x := Block(None, false, Some(t), Call(size, site))],
                threads := Put(s, t, Allocated(x, size, site)))
  }

  ghost predicate ReserveAlloc(s: State, s': State, t: Tid) {
    && t in s.threads && s.threads[t].pc.Allocated? && s.attached
    && var p := s.threads[t].pc;
       s' == s.(slots := s.slots + [None], threads := Put(s, t, Reserved(p.x, p.size, p.site, |s.slots|)))
  }

  /** The ring is full, or gone: the allocation stays unrecorded, and no number is drawn. */
  ghost predicate SkipRecord(s: State, s': State, t: Tid) {
    && t in s.threads && s.threads[t].pc.Allocated? && s.threads[t].pc.x in s.blocks
    && var x := s.threads[t].pc.x;
       s' == s.(blocks := s.blocks[x := s.blocks[x].(owner := None)], threads := Put(s, t, Idle))
  }

  ghost predicate StampAlloc(s: State, s': State, t: Tid) {
    && t in s.threads && s.threads[t].pc.Reserved? && s.threads[t].pc.x in s.blocks
    && var p := s.threads[t].pc;
       var i := |s.events|;
       s' == s.(
         events := s.events + [Alloc(p.x, p.size, p.site)],
         places := s.places + [Writing(t, p.slot)],
         blocks := s.blocks[p.x := s.blocks[p.x].(recorded := Some(i))],
         threads := Put(s, t, Stamped(p.x, p.slot, AllocRecord(i, p.x, p.size, p.site))))
  }

  ghost predicate PublishAlloc(s: State, s': State, t: Tid) {
    && t in s.threads && s.threads[t].pc.Stamped? && s.threads[t].pc.x in s.blocks
    && var p := s.threads[t].pc;
       && p.slot < |s.slots| && p.record.AllocRecord? && p.record.seqno < |s.places|
       && s' == s.(
         slots := s.slots[p.slot := Some(p.record)],
         places := s.places[p.record.seqno := InSlot(p.slot)],
         blocks := s.blocks[p.x := s.blocks[p.x].(owner := None)],
         threads := Put(s, t, Idle))
  }

  /** The program frees or reallocates a block that no one else is freeing. */
  ghost predicate StartFree(s: State, s': State, t: Tid, x: U64, after: After) {
    && t in s.threads && s.threads[t].pc.Idle? && s.attached && x in s.blocks && s.blocks[x].owner == None
    && s' == s.(blocks := s.blocks[x := s.blocks[x].(owner := Some(t))], threads := Put(s, t, Freeing(x, after)))
  }

  /** A full batch is flushed at once; one with an older entry may be stale and is then flushed early. */
  ghost predicate StampFree(s: State, s': State, t: Tid, stale: bool) {
    && t in s.threads && s.threads[t].pc.Freeing? && s.threads[t].pc.x in s.blocks
    && (stale ==> s.threads[t].batch != [])
    && var p := s.threads[t].pc;
       var batch := s.threads[t].batch + [FreeEntry(|s.events|, p.x)];
       var pc := if |batch| >= FREE_BATCH_CAP || stale then Flushing(p.x, p.after) else Acting(p.x, p.after);
       s' == s.(
         events := s.events + [Free(p.x)],
         places := s.places + [Pending(t)],
         blocks := s.blocks[p.x := s.blocks[p.x].(freed := true)],
         threads := s.threads[t := Thread(pc, batch)])
  }

  ghost predicate ReserveFlush(s: State, s': State, t: Tid) {
    && t in s.threads && s.threads[t].pc.Flushing? && s.attached
    && var p := s.threads[t].pc;
       s' == s.(slots := s.slots + [None], threads := Put(s, t, Filling(p.x, p.after, |s.slots|)))
  }

  /** The ring is full, or gone: the whole batch is lost. */
  ghost predicate LoseBatch(s: State, s': State, t: Tid) {
    && t in s.threads && s.threads[t].pc.Flushing?
    && var p := s.threads[t].pc;
       s' == s.(
         places := Moved(s.places, s.threads[t].batch, if s.attached then Dropped else Discarded),
         threads := s.threads[t := Thread(Acting(p.x, p.after), [])])
  }

  ghost predicate PublishFlush(s: State, s': State, t: Tid) {
    && t in s.threads && s.threads[t].pc.Filling? && s.threads[t].pc.slot < |s.slots|
    && var p := s.threads[t].pc;
       s' == s.(
         slots := s.slots[p.slot := Some(FreeBatch(s.threads[t].batch))],
         places := Moved(s.places, s.threads[t].batch, InSlot(p.slot)),
         threads := s.threads[t := Thread(Acting(p.x, p.after), [])])
  }

  /** Only now can the address be handed out again. */
  ghost predicate ActFree(s: State, s': State, t: Tid) {
    && t in s.threads && s.threads[t].pc.Acting? && s.threads[t].pc.after.RealFree?
    && s' == s.(blocks := s.blocks - {s.threads[t].pc.x}, threads := Put(s, t, Idle))
  }

  /** `realloc` moved the block to `y`, which may be where it was. */
  ghost predicate ActRealloc(s: State, s': State, t: Tid, y: U64, sampled: bool, size: nat, site: Site) {
    && t in s.threads && s.threads[t].pc.Acting? && s.threads[t].pc.after.RealRealloc?
    && var rest := s.blocks - {s.threads[t].pc.x};
       && y !in rest
       && s' == s.(
         blocks := rest[y := if sampled then Block(None, false, Some(t), Call(size, site))
                             else Block(None, false, None, NOT_SAMPLED)],
         threads := Put(s, t, if sampled then Allocated(y, size, site) else Idle))
  }

  /** `realloc` found no memory: the block stays, though its free has been queued. */
  ghost predicate FailRealloc(s: State, s': State, t: Tid) {
    && t in s.threads && s.threads[t].pc.Acting? && s.threads[t].pc.after.RealRealloc? && s.threads[t].pc.x in s.blocks
    && var x := s.threads[t].pc.x;
       s' == s.(blocks := s.blocks[x := s.blocks[x].(owner := None)], threads := Put(s, t, Idle))
  }

  ghost predicate Detach(s: State, s': State) {
    s' == s.(attached := false)
  }

  /** The entries of a batch are applied one after the other. */
  function TakeAll(book: Live, entries: seq<FreeEntry>): Live {
    if entries == [] then book
    else
      var n := |entries| - 1;
      TakeFree(TakeAll(book, entries[..n]), entries[n].address, entries[n].seqno)
  }

  function Processed(book: Live, r: Record): Live {
    match r
    case AllocRecord(i, x, size, site) => AddAlloc(book, x, LiveAlloc(i, size, site))
    case FreeBatch(entries) => TakeAll(book, entries)
  }

  /** The totals after a batch: each of its frees credits the site of the entry it takes. */
  function SitesTakeAll(sites: Sites, book: Live, entries: seq<FreeEntry>): Sites {
    if entries == [] then sites
    else
      var n := |entries| - 1;
      SitesTakeFree(SitesTakeAll(sites, book, entries[..n]), TakeAll(book, entries[..n]), entries[n].address,
                    entries[n].seqno)
  }

  function Counted(sites: Sites, book: Live, r: Record): Sites {
    match r
    case AllocRecord(i, x, size, site) => SitesAfterAlloc(sites, LiveAlloc(i, size, site))
    case FreeBatch(entries) => SitesTakeAll(sites, book, entries)
  }

  function Numbers(r: Record): seq<nat> {
    match r
    case AllocRecord(i, _, _, _) => [i]
    case FreeBatch(entries) => seq(|entries|, k requires 0 <= k < |entries| => entries[k].seqno)
  }

  /** The recorder takes the oldest place, once it is filled. */
  ghost predicate Consume(s: State, s': State) {
    && s.done < |s.slots| && s.slots[s.done].Some?
    && var r := s.slots[s.done].value;
       s' == s.(done := s.done + 1, arrived := s.arrived + Numbers(r), book := Processed(s.book, r),
                sites := Counted(s.sites, s.book, r))
  }

  ghost predicate ThreadStep(s: State, s': State, t: Tid) {
    || (exists x :: MallocUnsampled(s, s', t, x))
    || (exists x, size, site :: MallocSampled(s, s', t, x, size, site))
    || ReserveAlloc(s, s', t)
    || SkipRecord(s, s', t)
    || StampAlloc(s, s', t)
    || PublishAlloc(s, s', t)
    || (exists x, after :: StartFree(s, s', t, x, after))
    || (exists stale :: StampFree(s, s', t, stale))
    || ReserveFlush(s, s', t)
    || LoseBatch(s, s', t)
    || PublishFlush(s, s', t)
    || ActFree(s, s', t)
    || (exists y, sampled, size, site :: ActRealloc(s, s', t, y, sampled, size, site))
    || FailRealloc(s, s', t)
  }

  ghost predicate Next(s: State, s': State) {
    Detach(s, s') || Consume(s, s') || exists t :: ThreadStep(s, s', t)
  }

  /** A session starts with whatever blocks the program already has, none of them recorded. */
  ghost predicate Init(s: State) {
    && s.events == [] && s.places == [] && s.slots == [] && s.done == 0 && s.arrived == [] && s.book == map[] &&
        s.sites == map[]
    && (forall x :: x in s.blocks ==> s.blocks[x] == Block(None, false, None, NOT_SAMPLED))
    && (forall t :: t in s.threads ==> s.threads[t] == Thread(Idle, []))
  }

  // ---- What every step keeps ----

  /** The block a thread works on is its own, and in the state that the thread's shim has brought it to. */
  ghost predicate Owns(blocks: map<U64, Block>, t: Tid, pc: Pc) {
    !pc.Idle? ==>
      && pc.x in blocks && blocks[pc.x].owner == Some(t)
      && (pc.Allocated? || pc.Reserved? ==> blocks[pc.x].recorded == None && !blocks[pc.x].freed)
      && (pc.Flushing? || pc.Filling? || pc.Acting? ==> blocks[pc.x].freed)
  }

  ghost predicate Owned(blocks: map<U64, Block>, threads: map<Tid, Thread>) {
    forall t :: t in threads ==> Owns(blocks, t, threads[t].pc)
  }

  /** The number of the record of a block that has one and has not been freed. */
  function Recorded(blocks: map<U64, Block>, x: U64): Option<nat> {
    if x in blocks && !blocks[x].freed then blocks[x].recorded else None
  }

  function LiveAt(live: map<U64, nat>, x: U64): Option<nat> {
    if x in live then Some(live[x]) else None
  }

  /** Sequence numbers tell the truth: what they say is live at an address is the recorded block there. */
  ghost predicate Truth(blocks: map<U64, Block>, events: seq<Event>) {
    forall x :: LiveAt(LiveNow(events), x) == Recorded(blocks, x)
  }

  ghost predicate Increasing(entries: seq<FreeEntry>) {
    forall j, k :: 0 <= j < k < |entries| ==> entries[j].seqno < entries[k].seqno
  }

  /** The entries are frees that did happen, all of them in this place. */
  ghost predicate FreesAt(entries: seq<FreeEntry>, events: seq<Event>, places: seq<Place>, p: Place) {
    forall k :: 0 <= k < |entries| ==>
      && entries[k].seqno < |events| && entries[k].seqno < |places|
      && events[entries[k].seqno] == Free(entries[k].address) && places[entries[k].seqno] == p
  }

  /** A record in the writing says what happened. */
  ghost predicate StampOk(t: Tid, pc: Pc, events: seq<Event>, places: seq<Place>) {
    pc.Stamped? ==>
      match pc.record
      case AllocRecord(i, x, size, site) =>
        x == pc.x && i < |events| && i < |places| && events[i] == Alloc(x, size, site) &&
            places[i] == Writing(t, pc.slot)
      case FreeBatch(_) => false
  }

  ghost predicate ThreadOk(t: Tid, thread: Thread, events: seq<Event>, places: seq<Place>) {
    && StampOk(t, thread.pc, events, places)
    && Increasing(thread.batch)
    && |thread.batch| <= FREE_BATCH_CAP
    && (|thread.batch| < FREE_BATCH_CAP || thread.pc.Flushing? || thread.pc.Filling?)
    && FreesAt(thread.batch, events, places, Pending(t))
  }

  ghost predicate Threads(threads: map<Tid, Thread>, events: seq<Event>, places: seq<Place>) {
    forall t :: t in threads ==> ThreadOk(t, threads[t], events, places)
  }

  /** A published record says what happened. */
  ghost predicate RecordOk(r: Record, j: nat, events: seq<Event>, places: seq<Place>) {
    match r
    case AllocRecord(i, x, size, site) =>
      i < |events| && i < |places| && events[i] == Alloc(x, size, site) && places[i] == InSlot(j)
    case FreeBatch(entries) =>
      Increasing(entries) && FreesAt(entries, events, places, InSlot(j))
  }

  ghost predicate Published(slots: seq<Option<Record>>, events: seq<Event>, places: seq<Place>) {
    forall j :: 0 <= j < |slots| && slots[j].Some? ==> RecordOk(slots[j].value, j, events, places)
  }

  predicate Carries(r: Record, i: nat) {
    match r
    case AllocRecord(n, _, _, _) => n == i
    case FreeBatch(entries) => Mentions(entries, i)
  }

  /** Every event is where its place says. */
  ghost predicate PlaceOk(i: nat, e: Event, p: Place, threads: map<Tid, Thread>, slots: seq<Option<Record>>) {
    match p
    case Writing(t, j) =>
      && e.Alloc? && t in threads
      && threads[t].pc == Stamped(e.address, j, AllocRecord(i, e.address, e.size, e.site))
    case Pending(t) => e.Free? && t in threads && Mentions(threads[t].batch, i)
    case InSlot(j) => j < |slots| && slots[j].Some? && Carries(slots[j].value, i)
    case Dropped => e.Free?
    case Discarded => e.Free?
  }

  ghost predicate Placed(events: seq<Event>, places: seq<Place>, threads: map<Tid, Thread>,
                         slots: seq<Option<Record>>) {
    && |places| == |events|
    && forall i :: 0 <= i < |events| ==> PlaceOk(i, events[i], places[i], threads, slots)
  }

  function HeldSlot(pc: Pc): Option<nat> {
    if pc.Reserved? || pc.Stamped? || pc.Filling? then Some(pc.slot) else None
  }

  ghost predicate HeldOk(pc: Pc, slots: seq<Option<Record>>) {
    HeldSlot(pc).Some? ==> HeldSlot(pc).value < |slots| && slots[HeldSlot(pc).value] == None
  }

  /** A reserved place is filled by one thread, which has not filled it yet. */
  ghost predicate Held(threads: map<Tid, Thread>, slots: seq<Option<Record>>) {
    && (forall t :: t in threads ==> HeldOk(threads[t].pc, slots))
    && (forall t, u ::
          (t in threads && u in threads && HeldSlot(threads[t].pc).Some? &&
           HeldSlot(threads[t].pc) == HeldSlot(threads[u].pc))
          ==> t == u)
  }

  /** The ring place of an event that has one. */
  function SlotOf(p: Place): Option<nat> {
    if p.Writing? || p.InSlot? then Some(p.slot) else None
  }

  ghost predicate Before(p: Place, j: nat) {
    SlotOf(p).Some? ==> SlotOf(p).value < j
  }

  /** An allocation is ahead, in the ring, of every later event of its address. */
  ghost predicate InOrder(events: seq<Event>, places: seq<Place>) {
    && |places| == |events|
    && forall i, e ::
         (0 <= i < e < |events| && events[i].Alloc? && events[e].address == events[i].address &&
          SlotOf(places[e]).Some?)
         ==> Before(places[i], SlotOf(places[e]).value)
  }

  /** A place in hand is behind all the allocations that the record to go there must follow. */
  ghost predicate BehindOk(thread: Thread, events: seq<Event>, places: seq<Place>) {
    && |places| == |events|
    && (thread.pc.Reserved? ==>
          forall i :: 0 <= i < |events| && IsAlloc(events, i, thread.pc.x) ==> Before(places[i], thread.pc.slot))
    && (thread.pc.Filling? ==>
          forall i, k :: 0 <= i < |events| && 0 <= k < |thread.batch| && i < thread.batch[k].seqno && events[i].Alloc?
            ==> Before(places[i], thread.pc.slot))
  }

  ghost predicate Behind(threads: map<Tid, Thread>, events: seq<Event>, places: seq<Place>) {
    forall t :: t in threads ==> BehindOk(threads[t], events, places)
  }

  ghost predicate HasArrived(arrived: seq<nat>, i: nat) {
    i in arrived
  }

  /** The recorder has seen exactly the records up to its position, and its book is what they make of it. */
  ghost predicate Reader(events: seq<Event>, places: seq<Place>, done: nat, arrived: seq<nat>, book: Live) {
    && |places| == |events|
    && (forall i :: 0 <= i < |events| ==> (HasArrived(arrived, i) <==> places[i].InSlot? && places[i].slot < done))
    && Arrival(events, arrived)
    && book == Applied(events, arrived)
  }

  ghost predicate Drained(slots: seq<Option<Record>>, done: nat) {
    done <= |slots| && forall j :: 0 <= j < done ==> slots[j].Some?
  }

  /** At every call site what was allocated is what was freed and what the book has live. */
  ghost predicate Accounts(sites: Sites, book: Live) {
    WellFilled(book) && Balanced(sites, book)
  }

  ghost predicate Inv(s: State) {
    && Owned(s.blocks, s.threads)
    && Truth(s.blocks, s.events)
    && Separated(s.events)
    && Threads(s.threads, s.events, s.places)
    && Published(s.slots, s.events, s.places)
    && Placed(s.events, s.places, s.threads, s.slots)
    && Held(s.threads, s.slots)
    && InOrder(s.events, s.places)
    && Behind(s.threads, s.events, s.places)
    && Reader(s.events, s.places, s.done, s.arrived, s.book)
    && Drained(s.slots, s.done)
    && Accounts(s.sites, s.book)
  }

  // ---- What each part of the invariant needs from a step ----

  /** Only thread `t` moved. */
  ghost predicate OnlyThread(threads: map<Tid, Thread>, threads': map<Tid, Thread>, t: Tid) {
    && t in threads && threads'.Keys == threads.Keys
    && forall u :: u in threads && u != t ==> threads'[u] == threads[u]
  }

  /** Only blocks in `changed` changed, and none of them belongs to another thread. */
  ghost predicate OnlyBlocks(blocks: map<U64, Block>, blocks': map<U64, Block>, t: Tid, changed: set<U64>) {
    && (forall x :: x !in changed ==> (x in blocks <==> x in blocks') && (x in blocks ==> blocks'[x] == blocks[x]))
    && (forall x :: x in changed && x in blocks ==> blocks[x].owner == None || blocks[x].owner == Some(t))
  }

  /** What has happened stays, and no record moves but those in the hands of thread `t`. */
  ghost predicate OnlyPlaces(places: seq<Place>, places': seq<Place>, t: Tid) {
    && |places| <= |places'|
    && forall i :: 0 <= i < |places| ==>
         places'[i] == places[i] || places[i] == Pending(t) || (places[i].Writing? && places[i].t == t)
  }

  ghost predicate SlotsGrow(slots: seq<Option<Record>>, slots': seq<Option<Record>>) {
    && |slots| <= |slots'|
    && forall j :: 0 <= j < |slots| && slots[j].Some? ==> slots'[j] == slots[j]
  }

  /** A thread that keeps its pending batch, and its record in the writing. */
  ghost predicate Keeps(before: Thread, after: Thread) {
    && (forall i :: Mentions(before.batch, i) ==> Mentions(after.batch, i))
    && (before.pc.Stamped? ==> after.pc == before.pc)
  }

  lemma OwnedStep(blocks: map<U64, Block>, blocks': map<U64, Block>, threads: map<Tid, Thread>,
                  threads': map<Tid, Thread>, t: Tid, changed: set<U64>)
    requires Owned(blocks, threads) && OnlyThread(threads, threads', t) && OnlyBlocks(blocks, blocks', t, changed)
    requires Owns(blocks', t, threads'[t].pc)
    ensures Owned(blocks', threads')
  {
    forall u | u in threads'
      ensures Owns(blocks', u, threads'[u].pc)
    {
      if u != t {
        assert Owns(blocks, u, threads[u].pc);
      }
    }
  }

  lemma TruthSame(blocks: map<U64, Block>, blocks': map<U64, Block>, events: seq<Event>)
    requires Truth(blocks, events) && forall x :: Recorded(blocks', x) == Recorded(blocks, x)
    ensures Truth(blocks', events)
  {
    hide Recorded, LiveAt, LiveNow;
  }

  lemma FreesStay(entries: seq<FreeEntry>, events: seq<Event>, events': seq<Event>, places: seq<Place>,
                  places': seq<Place>, p: Place)
    requires FreesAt(entries, events, places, p) && events <= events' && |places| <= |places'|
    requires forall i :: 0 <= i < |places| && places[i] == p ==> places'[i] == p
    ensures FreesAt(entries, events', places', p)
  {
  }

  lemma ThreadsStep(threads: map<Tid, Thread>, threads': map<Tid, Thread>, t: Tid, events: seq<Event>,
                    events': seq<Event>,
                    places: seq<Place>, places': seq<Place>)
    requires Threads(threads, events, places) && OnlyThread(threads, threads', t)
    requires events <= events' && OnlyPlaces(places, places', t)
    requires ThreadOk(t, threads'[t], events', places')
    ensures Threads(threads', events', places')
  {
    forall u | u in threads'
      ensures ThreadOk(u, threads'[u], events', places')
    {
      if u != t {
        assert ThreadOk(u, threads[u], events, places);
        FreesStay(threads[u].batch, events, events', places, places', Pending(u));
        hide FreesAt, Increasing;
      }
    }
  }

  lemma PublishedStep(slots: seq<Option<Record>>, slots': seq<Option<Record>>, t: Tid, events: seq<Event>,
                      events': seq<Event>,
                      places: seq<Place>, places': seq<Place>)
    requires Published(slots, events, places) && SlotsGrow(slots, slots')
    requires events <= events' && OnlyPlaces(places, places', t)
    requires forall j :: 0 <= j < |slots'| && slots'[j].Some? && (j >= |slots| || slots[j] == None) ==>
      RecordOk(slots'[j].value, j, events', places')
    ensures Published(slots', events', places')
  {
    forall j | 0 <= j < |slots'| && slots'[j].Some?
      ensures RecordOk(slots'[j].value, j, events', places')
    {
      if j < |slots| && slots[j].Some? {
        assert RecordOk(slots[j].value, j, events, places);
        if slots[j].value.FreeBatch? {
          FreesStay(slots[j].value.entries, events, events', places, places', InSlot(j));
        }
      }
    }
  }

  lemma PlaceStays(i: nat, e: Event, p: Place, threads: map<Tid, Thread>, threads': map<Tid, Thread>, t: Tid,
                   slots: seq<Option<Record>>, slots': seq<Option<Record>>)
    requires PlaceOk(i, e, p, threads, slots) && OnlyThread(threads, threads', t) && SlotsGrow(slots, slots')
    requires p == Pending(t) && Mentions(threads[t].batch, i) ==> Mentions(threads'[t].batch, i)
    requires p.Writing? && p.t == t ==> threads'[t].pc == threads[t].pc
    ensures PlaceOk(i, e, p, threads', slots')
  {
  }

  /** Nothing happened and no record moved, but thread `t` stands elsewhere or the ring has grown. */
  lemma PlacedStep(events: seq<Event>, places: seq<Place>, threads: map<Tid, Thread>, threads': map<Tid, Thread>,
                   t: Tid,
                   slots: seq<Option<Record>>, slots': seq<Option<Record>>)
    requires Placed(events, places, threads, slots) && OnlyThread(threads, threads', t) && SlotsGrow(slots, slots')
    requires Keeps(threads[t], threads'[t])
    ensures Placed(events, places, threads', slots')
  {
    forall i | 0 <= i < |events|
      ensures PlaceOk(i, events[i], places[i], threads', slots')
    {
      assert PlaceOk(i, events[i], places[i], threads, slots);
      PlaceStays(i, events[i], places[i], threads, threads', t, slots, slots');
    }
  }

  lemma HeldStep(threads: map<Tid, Thread>, threads': map<Tid, Thread>, t: Tid, slots: seq<Option<Record>>)
    requires Held(threads, slots) && OnlyThread(threads, threads', t)
    requires HeldSlot(threads'[t].pc) == None || HeldSlot(threads'[t].pc) == HeldSlot(threads[t].pc)
    ensures Held(threads', slots)
  {
    hide HeldSlot;
  }

  /** The ring place of every allocation is where it was. */
  ghost predicate SameAllocSlots(events: seq<Event>, places: seq<Place>, places': seq<Place>) {
    && |places| == |events| <= |places'|
    && forall i :: 0 <= i < |events| && events[i].Alloc? ==> SlotOf(places'[i]) == SlotOf(places[i])
  }

  lemma BehindSame(thread: Thread, events: seq<Event>, places: seq<Place>, places': seq<Place>)
    requires BehindOk(thread, events, places) && SameAllocSlots(events, places, places') && |places'| == |places|
    ensures BehindOk(thread, events, places')
  {
    hide SlotOf;
  }

  lemma BehindStep(threads: map<Tid, Thread>, threads': map<Tid, Thread>, t: Tid, events: seq<Event>,
                   places: seq<Place>, places': seq<Place>)
    requires Behind(threads, events, places) && OnlyThread(threads, threads', t)
    requires SameAllocSlots(events, places, places') && |places'| == |places|
    requires BehindOk(threads'[t], events, places')
    ensures Behind(threads', events, places')
  {
    hide BehindOk, SameAllocSlots;
    forall u | u in threads'
      ensures BehindOk(threads'[u], events, places')
    {
      if u != t {
        BehindSame(threads[u], events, places, places');
      }
    }
  }

  lemma {:induction false} AppliedGrows(events: seq<Event>, events': seq<Event>, order: seq<nat>)
    requires events <= events' && InRange(events, order)
    ensures InRange(events', order) && Applied(events', order) == Applied(events, order)
    decreases |order|
  {
    if order == [] {
    } else {
      AppliedGrows(events, events', order[..|order| - 1]);
    }
  }

  lemma ArrivalGrows(events: seq<Event>, events': seq<Event>, order: seq<nat>)
    requires events <= events' && Arrival(events, order)
    ensures Arrival(events', order)
  {
    assert forall p :: 0 <= p < |order| ==> events'[order[p]] == events[order[p]];
  }

  predicate Seen(p: Place, done: nat) {
    p.InSlot? && p.slot < done
  }

  /** The recorder notices nothing as long as no record of an already taken place appears or goes. */
  lemma ReaderStep(events: seq<Event>, events': seq<Event>, places: seq<Place>, places': seq<Place>, done: nat,
                   arrived: seq<nat>, book: Live)
    requires Reader(events, places, done, arrived, book) && events <= events' && |places'| == |events'|
    requires forall i :: 0 <= i < |events| ==> (Seen(places'[i], done) <==> Seen(places[i], done))
    requires forall i: nat :: |events| <= i < |events'| ==> !Seen(places'[i], done)
    ensures Reader(events', places', done, arrived, book)
  {
    AppliedGrows(events, events', arrived);
    ArrivalGrows(events, events', arrived);
    assert forall i: nat :: HasArrived(arrived, i) ==> i < |events|;
    hide Applied, Arrival, HasArrived;
  }

  /** No record has a place beyond the ring's. */
  lemma PlacesInRing(s: State, i: nat)
    requires Inv(s) && i < |s.events|
    ensures Before(s.places[i], |s.slots|)
  {
    assert PlaceOk(i, s.events[i], s.places[i], s.threads, s.slots);
    hide Owned, Truth, Separated, Threads, Published, Placed, InOrder, Behind, Reader, Drained;
    if s.places[i].Writing? {
      assert HeldOk(s.threads[s.places[i].t].pc, s.slots);
    }
  }

  // ---- Steps that only move a thread and its block ----

  lemma QuietStep(s: State, s': State, t: Tid, changed: set<U64>)
    requires Inv(s) && OnlyThread(s.threads, s'.threads, t) && OnlyBlocks(s.blocks, s'.blocks, t, changed)
    requires s' == s.(blocks := s'.blocks, threads := s'.threads)
    requires s'.threads[t].batch == s.threads[t].batch
    requires var pc, pc' := s.threads[t].pc, s'.threads[t].pc;
      && !pc.Stamped? && !pc.Flushing? && !pc.Filling?
      && !pc'.Stamped? && !pc'.Reserved? && !pc'.Filling?
    requires Owns(s'.blocks, t, s'.threads[t].pc)
    requires forall x :: Recorded(s'.blocks, x) == Recorded(s.blocks, x)
    ensures Inv(s')
  {
    var pc, pc' := s.threads[t].pc, s'.threads[t].pc;
    assert ThreadOk(t, s.threads[t], s.events, s.places);
    assert ThreadOk(t, s'.threads[t], s.events, s.places);
    assert BehindOk(s'.threads[t], s.events, s.places);
    assert Keeps(s.threads[t], s'.threads[t]);
    assert HeldSlot(pc') == None;
    hide Owned, Owns, Truth, Recorded, Separated, Threads, ThreadOk, Published, Placed, Held, HeldSlot, InOrder, Behind,
      BehindOk, Reader, Drained, OnlyThread, OnlyBlocks, Keeps;
    OwnedStep(s.blocks, s'.blocks, s.threads, s'.threads, t, changed);
    TruthSame(s.blocks, s'.blocks, s.events);
    ThreadsStep(s.threads, s'.threads, t, s.events, s.events, s.places, s.places);
    PlacedStep(s.events, s.places, s.threads, s'.threads, t, s.slots, s.slots);
    HeldStep(s.threads, s'.threads, t, s.slots);
    BehindStep(s.threads, s'.threads, t, s.events, s.places, s.places);
  }

  lemma MallocUnsampledKeeps(s: State, s': State, t: Tid, x: U64)
    requires Inv(s) && MallocUnsampled(s, s', t, x)
    ensures Inv(s')
  {
    hide Inv;
    QuietStep(s, s', t, {x});
  }

  lemma MallocSampledKeeps(s: State, s': State, t: Tid, x: U64, size: nat, site: Site)
    requires Inv(s) && MallocSampled(s, s', t, x, size, site)
    ensures Inv(s')
  {
    hide Inv;
    QuietStep(s, s', t, {x});
  }

  lemma LetGoKeeps(s: State, s': State, t: Tid)
    requires Inv(s) && t in s.threads && !s.threads[t].pc.Idle? && s.threads[t].pc.x in s.blocks
    requires s.threads[t].pc.Allocated? || s.threads[t].pc.Acting?
    requires var x := s.threads[t].pc.x;
      s' == s.(blocks := s.blocks[x := s.blocks[x].(owner := None)], threads := Put(s, t, Idle))
    ensures Inv(s')
  {
    var x := s.threads[t].pc.x;
    assert Owns(s.blocks, t, s.threads[t].pc);
    assert OnlyThread(s.threads, s'.threads, t);
    assert OnlyBlocks(s.blocks, s'.blocks, t, {x});
    assert forall y :: Recorded(s'.blocks, y) == Recorded(s.blocks, y);
    hide Inv, OnlyThread, OnlyBlocks, Recorded;
    QuietStep(s, s', t, {x});
  }

  lemma StartFreeKeeps(s: State, s': State, t: Tid, x: U64, after: After)
    requires Inv(s) && StartFree(s, s', t, x, after)
    ensures Inv(s')
  {
    hide Inv;
    QuietStep(s, s', t, {x});
  }

  lemma VanishKeeps(s: State, s': State, t: Tid)
    requires Inv(s) && t in s.threads && s.threads[t].pc.Acting?
    requires s' == s.(blocks := s.blocks - {s.threads[t].pc.x}, threads := Put(s, t, Idle))
    ensures Inv(s')
  {
    var x := s.threads[t].pc.x;
    assert Owns(s.blocks, t, s.threads[t].pc);
    assert OnlyThread(s.threads, s'.threads, t);
    assert OnlyBlocks(s.blocks, s'.blocks, t, {x});
    assert forall y :: Recorded(s'.blocks, y) == Recorded(s.blocks, y);
    hide Inv, OnlyThread, OnlyBlocks, Recorded;
    QuietStep(s, s', t, {x});
  }

  lemma ActFreeKeeps(s: State, s': State, t: Tid)
    requires Inv(s) && ActFree(s, s', t)
    ensures Inv(s')
  {
    hide Inv;
    VanishKeeps(s, s', t);
  }

  /** A `realloc` that moves the block is a free and an allocation. */
  lemma ActReallocKeeps(s: State, s': State, t: Tid, y: U64, sampled: bool, size: nat, site: Site)
    requires Inv(s) && ActRealloc(s, s', t, y, sampled, size, site)
    ensures Inv(s')
  {
    hide Inv;
    var mid := s.(blocks := s.blocks - {s.threads[t].pc.x}, threads := Put(s, t, Idle));
    VanishKeeps(s, mid, t);
    assert OnlyThread(mid.threads, s'.threads, t);
    assert OnlyBlocks(mid.blocks, s'.blocks, t, {y});
    assert forall z :: Recorded(s'.blocks, z) == Recorded(mid.blocks, z);
    hide OnlyThread, OnlyBlocks, Recorded;
    QuietStep(mid, s', t, {y});
  }

  // ---- Reserving a place ----

  /** A place just reserved lies behind every record there is. */
  lemma NewPlaceIsBehind(s: State, thread: Thread)
    requires Inv(s) && (thread.pc.Reserved? || thread.pc.Filling?) && thread.pc.slot == |s.slots|
    ensures BehindOk(thread, s.events, s.places)
  {
    assert |s.places| == |s.events|;
    forall i | 0 <= i < |s.events|
      ensures Before(s.places[i], |s.slots|)
    {
      PlacesInRing(s, i);
    }
    hide Before, Inv;
  }

  lemma NewPlaceIsHeld(threads: map<Tid, Thread>, threads': map<Tid, Thread>, t: Tid, slots: seq<Option<Record>>)
    requires Held(threads, slots) && OnlyThread(threads, threads', t) && HeldSlot(threads'[t].pc) == Some(|slots|)
    ensures Held(threads', slots + [None])
  {
    hide HeldSlot;
    assert forall u :: u in threads ==> HeldOk(threads[u].pc, slots);
  }

  ghost predicate TakesPlace(s: State, s': State, t: Tid) {
    && OnlyThread(s.threads, s'.threads, t)
    && s' == s.(slots := s.slots + [None], threads := s'.threads)
    && s'.threads[t].batch == s.threads[t].batch
    && var pc, pc' := s.threads[t].pc, s'.threads[t].pc;
       ((pc.Allocated? && pc'.Reserved?) || (pc.Flushing? && pc'.Filling?)) && pc'.x == pc.x && pc'.slot == |s.slots|
  }

  lemma ReserveThread(s: State, s': State, t: Tid)
    requires Inv(s) && TakesPlace(s, s', t)
    ensures Owns(s.blocks, t, s'.threads[t].pc) && ThreadOk(t, s'.threads[t], s.events, s.places)
    ensures Keeps(s.threads[t], s'.threads[t]) && HeldSlot(s'.threads[t].pc) == Some(|s.slots|)
    ensures OnlyBlocks(s.blocks, s.blocks, t, {})
  {
    assert Owns(s.blocks, t, s.threads[t].pc);
    assert ThreadOk(t, s.threads[t], s.events, s.places);
    hide Inv;
  }

  lemma ReserveStep(s: State, s': State, t: Tid)
    requires Inv(s) && TakesPlace(s, s', t)
    ensures Inv(s')
  {
    assert SlotsGrow(s.slots, s'.slots) && Drained(s'.slots, s'.done);
    ReserveThread(s, s', t);
    NewPlaceIsBehind(s, s'.threads[t]);
    hide Owned, Owns, Truth, Recorded, Separated, Threads, ThreadOk, Published, RecordOk, Placed, Held, HeldSlot,
        InOrder, Behind,
      BehindOk, Reader, Drained, OnlyThread, OnlyBlocks, Keeps, SlotsGrow;
    OwnedStep(s.blocks, s'.blocks, s.threads, s'.threads, t, {});
    ThreadsStep(s.threads, s'.threads, t, s.events, s.events, s.places, s.places);
    PlacedStep(s.events, s.places, s.threads, s'.threads, t, s.slots, s'.slots);
    PublishedStep(s.slots, s'.slots, t, s.events, s.events, s.places, s.places);
    NewPlaceIsHeld(s.threads, s'.threads, t, s.slots);
    BehindStep(s.threads, s'.threads, t, s.events, s.places, s.places);
  }

  lemma ReserveKeeps(s: State, s': State, t: Tid)
    requires Inv(s) && (ReserveAlloc(s, s', t) || ReserveFlush(s, s', t))
    ensures Inv(s')
  {
    hide Inv;
    ReserveStep(s, s', t);
  }

  // ---- Drawing a number for an allocation ----

  lemma AllocIsNews(blocks: map<U64, Block>, blocks': map<U64, Block>, events: seq<Event>, e: Event)
    requires Truth(blocks, events) && e.Alloc? && e.address in blocks && !blocks[e.address].freed
    requires blocks' == blocks[e.address := blocks[e.address].(recorded := Some(|events|))]
    ensures Truth(blocks', events + [e])
  {
    assert (events + [e])[..|events|] == events;
    assert LiveNow(events + [e]) == LiveNow(events)[e.address := |events|];
    hide LiveNow;
    forall x: U64
      ensures LiveAt(LiveNow(events + [e]), x) == Recorded(blocks', x)
    {
      assert LiveAt(LiveNow(events), x) == Recorded(blocks, x);
    }
  }

  lemma FreshAllocSeparates(blocks: map<U64, Block>, events: seq<Event>, e: Event)
    requires Truth(blocks, events) && Separated(events) && e.Alloc? && Recorded(blocks, e.address) == None
    ensures Separated(events + [e])
  {
    var events' := events + [e];
    assert LiveAt(LiveNow(events), e.address) == None;
    LiveNowMeans(events, e.address);
    hide LiveNow, Truth;
    forall a, b, x | a < b && IsAlloc(events', a, x) && IsAlloc(events', b, x)
      ensures exists f :: a < f < b && IsFree(events', f, x)
    {
      assert IsAlloc(events, a, x);
      if b == |events| {
        var f :| a < f && IsFree(events, f, x);
        assert IsFree(events', f, x);
      } else {
        assert IsAlloc(events, b, x);
        var f :| a < f < b && IsFree(events, f, x);
        assert IsFree(events', f, x);
      }
    }
  }

  lemma AllocInOrder(thread: Thread, events: seq<Event>, places: seq<Place>, e: Event, p: Place)
    requires InOrder(events, places) && BehindOk(thread, events, places)
    requires thread.pc.Reserved? && e.Alloc? && e.address == thread.pc.x && SlotOf(p) == Some(thread.pc.slot)
    ensures InOrder(events + [e], places + [p])
  {
    var events', places' := events + [e], places + [p];
    hide Before, SlotOf;
    forall i, k | 0 <= i < k < |events'| && events'[i].Alloc? && events'[k].address == events'[i].address &&
        SlotOf(places'[k]).Some?
      ensures Before(places'[i], SlotOf(places'[k]).value)
    {
      assert IsAlloc(events, i, events[i].address);
      assert places'[i] == places[i];
    }
  }

  lemma AllocBehind(s: State, s': State, t: Tid, u: Tid)
    requires Inv(s) && StampAlloc(s, s', t) && u in s.threads && u != t
    ensures BehindOk(s.threads[u], s'.events, s'.places)
  {
    assert Owns(s.blocks, t, s.threads[t].pc) && Owns(s.blocks, u, s.threads[u].pc);
    assert ThreadOk(u, s.threads[u], s.events, s.places);
    assert BehindOk(s.threads[u], s.events, s.places);
    hide Inv;
  }

  lemma StampAllocFrame(s: State, s': State, t: Tid)
    requires Inv(s) && StampAlloc(s, s', t)
    ensures OnlyThread(s.threads, s'.threads, t) && OnlyPlaces(s.places, s'.places, t)
  {
    hide Inv;
  }

  lemma StampAllocBlocks(s: State, s': State, t: Tid)
    requires Inv(s) && StampAlloc(s, s', t)
    ensures OnlyBlocks(s.blocks, s'.blocks, t, {s.threads[t].pc.x})
    ensures Owns(s'.blocks, t, s'.threads[t].pc)
  {
    assert Owns(s.blocks, t, s.threads[t].pc);
    hide Inv;
  }

  lemma StampAllocThread(s: State, s': State, t: Tid)
    requires Inv(s) && StampAlloc(s, s', t)
    ensures ThreadOk(t, s'.threads[t], s'.events, s'.places)
    ensures BehindOk(s'.threads[t], s'.events, s'.places)
    ensures Keeps(s.threads[t], s'.threads[t])
    ensures HeldSlot(s'.threads[t].pc) == HeldSlot(s.threads[t].pc)
  {
    assert ThreadOk(t, s.threads[t], s.events, s.places);
    assert |s.places| == |s.events|;
    hide Inv, Increasing;
    FreesStay(s.threads[t].batch, s.events, s'.events, s.places, s'.places, Pending(t));
    hide FreesAt;
  }

  lemma NewEventPlaced(events: seq<Event>, places: seq<Place>, e: Event, p: Place, threads: map<Tid, Thread>,
                       slots: seq<Option<Record>>)
    requires Placed(events, places, threads, slots) && PlaceOk(|events|, e, p, threads, slots)
    ensures Placed(events + [e], places + [p], threads, slots)
  {
    hide PlaceOk;
  }

  lemma NewEventUnread(s: State, e: Event, p: Place)
    requires Inv(s) && !p.InSlot?
    ensures Reader(s.events + [e], s.places + [p], s.done, s.arrived, s.book)
  {
    assert |s.places| == |s.events|;
    ReaderStep(s.events, s.events + [e], s.places, s.places + [p], s.done, s.arrived, s.book);
  }

  lemma StampAllocKeeps(s: State, s': State, t: Tid)
    requires Inv(s) && StampAlloc(s, s', t)
    ensures Inv(s')
  {
    var p := s.threads[t].pc;
    var e := Alloc(p.x, p.size, p.site);
    assert s'.events == s.events + [e] && s'.places == s.places + [Writing(t, p.slot)];
    assert Owns(s.blocks, t, p) && BehindOk(s.threads[t], s.events, s.places);
    assert |s.places| == |s.events|;
    StampAllocFrame(s, s', t);
    StampAllocBlocks(s, s', t);
    StampAllocThread(s, s', t);
    NewEventUnread(s, e, Writing(t, p.slot));
    assert SlotsGrow(s.slots, s.slots);
    assert Recorded(s.blocks, p.x) == None;
    assert Behind(s'.threads, s'.events, s'.places) by {
      hide Inv, StampAlloc, BehindOk;
      forall u | u in s'.threads && u != t
        ensures BehindOk(s'.threads[u], s'.events, s'.places)
      {
        AllocBehind(s, s', t, u);
      }
    }
    hide Owned, Owns, Truth, Recorded, Separated, Threads, ThreadOk, Published, RecordOk, Placed, Held, HeldSlot,
        InOrder, Behind,
      BehindOk, Reader, Drained, OnlyThread, OnlyBlocks, OnlyPlaces, Keeps, SlotsGrow;
    OwnedStep(s.blocks, s'.blocks, s.threads, s'.threads, t, {p.x});
    AllocIsNews(s.blocks, s'.blocks, s.events, e);
    FreshAllocSeparates(s.blocks, s.events, e);
    ThreadsStep(s.threads, s'.threads, t, s.events, s'.events, s.places, s'.places);
    PublishedStep(s.slots, s'.slots, t, s.events, s'.events, s.places, s'.places);
    PlacedStep(s.events, s.places, s.threads, s'.threads, t, s.slots, s.slots);
    NewEventPlaced(s.events, s.places, e, Writing(t, p.slot), s'.threads, s.slots);
    HeldStep(s.threads, s'.threads, t, s.slots);
    AllocInOrder(s.threads[t], s.events, s.places, e, Writing(t, p.slot));
  }

  // ---- Drawing a number for a free ----

  lemma FreeIsNews(blocks: map<U64, Block>, blocks': map<U64, Block>, events: seq<Event>, e: Event)
    requires Truth(blocks, events) && e.Free? && e.address in blocks
    requires blocks' == blocks[e.address := blocks[e.address].(freed := true)]
    ensures Truth(blocks', events + [e])
  {
    assert (events + [e])[..|events|] == events;
    assert LiveNow(events + [e]) == LiveNow(events) - {e.address};
    hide LiveNow;
    forall x: U64
      ensures LiveAt(LiveNow(events + [e]), x) == Recorded(blocks', x)
    {
      assert LiveAt(LiveNow(events), x) == Recorded(blocks, x);
    }
  }

  lemma FreeSeparates(events: seq<Event>, e: Event)
    requires Separated(events) && e.Free?
    ensures Separated(events + [e])
  {
    var events' := events + [e];
    forall a, b, x | a < b && IsAlloc(events', a, x) && IsAlloc(events', b, x)
      ensures exists f :: a < f < b && IsFree(events', f, x)
    {
      assert IsAlloc(events, a, x) && IsAlloc(events, b, x);
      var f :| a < f < b && IsFree(events, f, x);
      assert IsFree(events', f, x);
    }
  }

  lemma FreeInOrder(events: seq<Event>, places: seq<Place>, e: Event, p: Place)
    requires InOrder(events, places) && e.Free? && SlotOf(p) == None
    ensures InOrder(events + [e], places + [p])
  {
    var events', places' := events + [e], places + [p];
    hide Before, SlotOf;
    forall i, k | 0 <= i < k < |events'| && events'[i].Alloc? && events'[k].address == events'[i].address &&
        SlotOf(places'[k]).Some?
      ensures Before(places'[i], SlotOf(places'[k]).value)
    {
      assert k < |events| && places'[i] == places[i] && places'[k] == places[k];
    }
  }

  lemma FreeBehind(thread: Thread, events: seq<Event>, places: seq<Place>, e: Event, p: Place)
    requires BehindOk(thread, events, places) && e.Free?
    ensures BehindOk(thread, events + [e], places + [p])
  {
    hide Before;
    assert forall i :: 0 <= i < |events| ==> (places + [p])[i] == places[i] && (events + [e])[i] == events[i];
    assert forall i, x :: 0 <= i < |events + [e]| && IsAlloc(events + [e], i, x) ==> IsAlloc(events, i, x);
  }

  lemma StampFreeFrame(s: State, s': State, t: Tid, stale: bool)
    requires Inv(s) && StampFree(s, s', t, stale)
    ensures OnlyThread(s.threads, s'.threads, t) && OnlyPlaces(s.places, s'.places, t)
  {
    hide Inv;
  }

  lemma StampFreeBlocks(s: State, s': State, t: Tid, stale: bool)
    requires Inv(s) && StampFree(s, s', t, stale)
    ensures OnlyBlocks(s.blocks, s'.blocks, t, {s.threads[t].pc.x})
    ensures Owns(s'.blocks, t, s'.threads[t].pc)
  {
    assert Owns(s.blocks, t, s.threads[t].pc);
    hide Inv;
  }

  lemma BatchTakesFree(batch: seq<FreeEntry>, events: seq<Event>, places: seq<Place>, t: Tid, x: U64)
    requires Increasing(batch) && FreesAt(batch, events, places, Pending(t)) && |places| == |events|
    ensures var batch' := batch + [FreeEntry(|events|, x)];
      && Increasing(batch') && FreesAt(batch', events + [Free(x)], places + [Pending(t)], Pending(t))
      && (forall i :: Mentions(batch, i) ==> Mentions(batch', i)) && Mentions(batch', |events|)
  {
    var batch' := batch + [FreeEntry(|events|, x)];
    assert forall k :: 0 <= k < |batch| ==> batch'[k] == batch[k] && batch[k].seqno < |events|;
    assert batch'[|batch|] == FreeEntry(|events|, x);
    forall i | Mentions(batch, i)
      ensures Mentions(batch', i)
    {
      var k :| 0 <= k < |batch| && batch[k].seqno == i;
      assert batch'[k].seqno == i;
    }
  }

  lemma StampFreeThread(s: State, s': State, t: Tid, stale: bool)
    requires Inv(s) && StampFree(s, s', t, stale)
    ensures ThreadOk(t, s'.threads[t], s'.events, s'.places)
    ensures Keeps(s.threads[t], s'.threads[t]) && Mentions(s'.threads[t].batch, |s.events|)
    ensures HeldSlot(s'.threads[t].pc) == None && !s'.threads[t].pc.Reserved? && !s'.threads[t].pc.Filling?
  {
    assert ThreadOk(t, s.threads[t], s.events, s.places);
    assert |s.places| == |s.events|;
    hide Inv, Increasing, FreesAt, Mentions;
    BatchTakesFree(s.threads[t].batch, s.events, s.places, t, s.threads[t].pc.x);
  }

  lemma StampFreeKeeps(s: State, s': State, t: Tid, stale: bool)
    requires Inv(s) && StampFree(s, s', t, stale)
    ensures Inv(s')
  {
    var p := s.threads[t].pc;
    var e := Free(p.x);
    assert s'.events == s.events + [e] && s'.places == s.places + [Pending(t)];
    assert |s.places| == |s.events|;
    StampFreeFrame(s, s', t, stale);
    StampFreeBlocks(s, s', t, stale);
    StampFreeThread(s, s', t, stale);
    NewEventUnread(s, e, Pending(t));
    assert SlotsGrow(s.slots, s.slots);
    assert Behind(s'.threads, s'.events, s'.places) by {
      hide Inv, BehindOk;
      assert |s'.places| == |s'.events|;
      forall u | u in s'.threads
        ensures BehindOk(s'.threads[u], s'.events, s'.places)
      {
        if u != t {
          InvBehind(s, u);
          FreeBehind(s.threads[u], s.events, s.places, e, Pending(t));
        } else {
          NotInHand(s'.threads[u], s'.events, s'.places);
        }
      }
    }
    assert PlaceOk(|s.events|, e, Pending(t), s'.threads, s.slots);
    hide Owned, Owns, Truth, Recorded, Separated, Threads, ThreadOk, Published, RecordOk, Placed, Held, HeldSlot,
        InOrder, Behind,
      BehindOk, Reader, Drained, OnlyThread, OnlyBlocks, OnlyPlaces, Keeps, SlotsGrow;
    OwnedStep(s.blocks, s'.blocks, s.threads, s'.threads, t, {p.x});
    FreeIsNews(s.blocks, s'.blocks, s.events, e);
    FreeSeparates(s.events, e);
    ThreadsStep(s.threads, s'.threads, t, s.events, s'.events, s.places, s'.places);
    PublishedStep(s.slots, s'.slots, t, s.events, s'.events, s.places, s'.places);
    PlacedStep(s.events, s.places, s.threads, s'.threads, t, s.slots, s.slots);
    NewEventPlaced(s.events, s.places, e, Pending(t), s'.threads, s.slots);
    HeldStep(s.threads, s'.threads, t, s.slots);
    FreeInOrder(s.events, s.places, e, Pending(t));
  }

  lemma InvBehind(s: State, u: Tid)
    requires Inv(s) && u in s.threads
    ensures BehindOk(s.threads[u], s.events, s.places)
  {
  }

  lemma NotInHand(thread: Thread, events: seq<Event>, places: seq<Place>)
    requires |places| == |events| && !thread.pc.Reserved? && !thread.pc.Filling?
    ensures BehindOk(thread, events, places)
  {
  }

  // ---- Publishing an allocation ----

  lemma PublishAllocThread(s: State, s': State, t: Tid)
    requires Inv(s) && PublishAlloc(s, s', t)
    ensures var p := s.threads[t].pc;
      && s.places[p.record.seqno] == Writing(t, p.slot)
      && RecordOk(p.record, p.slot, s'.events, s'.places)
    ensures OnlyPlaces(s.places, s'.places, t)
    ensures ThreadOk(t, s'.threads[t], s'.events, s'.places)
    ensures SameAllocSlots(s.events, s.places, s'.places)
  {
    assert ThreadOk(t, s.threads[t], s.events, s.places);
    assert |s.places| == |s.events|;
    hide Inv, Increasing;
    FreesStay(s.threads[t].batch, s.events, s'.events, s.places, s'.places, Pending(t));
    hide FreesAt;
  }

  lemma PublishAllocBlocks(s: State, s': State, t: Tid)
    requires Inv(s) && PublishAlloc(s, s', t)
    ensures OnlyThread(s.threads, s'.threads, t) && OnlyBlocks(s.blocks, s'.blocks, t, {s.threads[t].pc.x})
    ensures Owns(s'.blocks, t, s'.threads[t].pc)
    ensures forall y :: Recorded(s'.blocks, y) == Recorded(s.blocks, y)
  {
    hide Inv;
    InvOwns(s, t);
  }

  lemma InvOwns(s: State, t: Tid)
    requires Inv(s) && t in s.threads
    ensures Owns(s.blocks, t, s.threads[t].pc)
  {
  }

  /** The place that a thread has in hand is not filled, nor reached by the recorder. */
  lemma InHand(s: State, t: Tid)
    requires Inv(s) && t in s.threads && HeldSlot(s.threads[t].pc).Some?
    ensures var j := HeldSlot(s.threads[t].pc).value;
      s.done <= j < |s.slots| && s.slots[j] == None
  {
    assert HeldOk(s.threads[t].pc, s.slots);
  }

  lemma FilledOneHeld(threads: map<Tid, Thread>, threads': map<Tid, Thread>, t: Tid, slots: seq<Option<Record>>,
                      j: nat, r: Record)
    requires Held(threads, slots) && OnlyThread(threads, threads', t) && j < |slots|
    requires HeldSlot(threads[t].pc) == Some(j) && HeldSlot(threads'[t].pc) == None
    ensures Held(threads', slots[j := Some(r)])
  {
    hide HeldSlot;
    forall u | u in threads'
      ensures HeldOk(threads'[u].pc, slots[j := Some(r)])
    {
      assert HeldOk(threads[u].pc, slots);
    }
  }

  lemma PublishedAllocPlaced(s: State, s': State, t: Tid)
    requires Inv(s) && PublishAlloc(s, s', t) && OnlyThread(s.threads, s'.threads, t) && SlotsGrow(s.slots, s'.slots)
    ensures Placed(s'.events, s'.places, s'.threads, s'.slots)
  {
    var n := s.threads[t].pc.record.seqno;
    assert |s.places| == |s.events|;
    forall i | 0 <= i < |s.events|
      ensures PlaceOk(i, s'.events[i], s'.places[i], s'.threads, s'.slots)
    {
      assert PlaceOk(i, s.events[i], s.places[i], s.threads, s.slots);
      hide Inv;
      if i != n {
        PlaceStays(i, s.events[i], s.places[i], s.threads, s'.threads, t, s.slots, s'.slots);
      }
    }
  }

  lemma PublishAllocKeeps(s: State, s': State, t: Tid)
    requires Inv(s) && PublishAlloc(s, s', t)
    ensures Inv(s')
  {
    var p := s.threads[t].pc;
    InHand(s, t);
    PublishAllocThread(s, s', t);
    PublishAllocBlocks(s, s', t);
    assert SlotsGrow(s.slots, s'.slots) && Drained(s'.slots, s'.done);
    PublishedAllocPlaced(s, s', t);
    NotInHand(s'.threads[t], s'.events, s'.places);
    assert HeldSlot(p) == Some(p.slot) && HeldSlot(s'.threads[t].pc) == None;
    assert InOrder(s'.events, s'.places) by {
      SameSlotsInOrder(s.events, s.places, s'.places);
    }
    hide Owned, Owns, Truth, Recorded, Separated, Threads, ThreadOk, Published, RecordOk, Placed, Held, HeldSlot,
        InOrder, Behind,
      BehindOk, Reader, Drained, OnlyThread, OnlyBlocks, OnlyPlaces, SameAllocSlots, SlotsGrow;
    OwnedStep(s.blocks, s'.blocks, s.threads, s'.threads, t, {p.x});
    TruthSame(s.blocks, s'.blocks, s.events);
    ThreadsStep(s.threads, s'.threads, t, s.events, s'.events, s.places, s'.places);
    PublishedStep(s.slots, s'.slots, t, s.events, s'.events, s.places, s'.places);
    FilledOneHeld(s.threads, s'.threads, t, s.slots, p.slot, p.record);
    BehindStep(s.threads, s'.threads, t, s.events, s.places, s'.places);
    ReaderStep(s.events, s'.events, s.places, s'.places, s.done, s.arrived, s.book);
  }

  lemma SameSlotsInOrder(events: seq<Event>, places: seq<Place>, places': seq<Place>)
    requires InOrder(events, places) && |places'| == |places|
    requires forall i :: 0 <= i < |places| ==> SlotOf(places'[i]) == SlotOf(places[i])
    ensures InOrder(events, places')
  {
    hide SlotOf;
  }

  // ---- A batch leaves its thread ----

  /** All that is pending for a thread is in its batch, and the other way round. */
  lemma PendingIsBatch(s: State, t: Tid, i: nat)
    requires Inv(s) && t in s.threads && i < |s.events|
    ensures |s.places| == |s.events|
    ensures s.places[i] == Pending(t) <==> Mentions(s.threads[t].batch, i)
    ensures Mentions(s.threads[t].batch, i) ==> s.events[i].Free?
  {
    assert ThreadOk(t, s.threads[t], s.events, s.places);
    assert PlaceOk(i, s.events[i], s.places[i], s.threads, s.slots);
  }

  lemma BatchMoves(s: State, places': seq<Place>, t: Tid, to: Place)
    requires Inv(s) && t in s.threads && places' == Moved(s.places, s.threads[t].batch, to)
    ensures |places'| == |s.places| == |s.events| && OnlyPlaces(s.places, places', t)
    ensures forall i :: 0 <= i < |s.events| ==> places'[i] == if s.places[i] == Pending(t) then to else s.places[i]
    ensures forall i :: 0 <= i < |s.events| && s.places[i] == Pending(t) ==> s.events[i].Free?
    ensures SameAllocSlots(s.events, s.places, places')
  {
    assert |s.places| == |s.events|;
    hide Inv, Moved, Mentions;
    forall i: nat | i < |s.events|
      ensures s.places[i] == Pending(t) <==> Mentions(s.threads[t].batch, i)
      ensures s.places[i] == Pending(t) ==> s.events[i].Free?
    {
      PendingIsBatch(s, t, i);
    }
  }

  lemma MovedPlaced(s: State, places': seq<Place>, threads': map<Tid, Thread>, slots': seq<Option<Record>>, t: Tid,
                    to: Place)
    requires Inv(s) && OnlyThread(s.threads, threads', t) && SlotsGrow(s.slots, slots')
    requires |places'| == |s.places| == |s.events| && !s.threads[t].pc.Stamped?
    requires forall i :: 0 <= i < |s.events| ==> places'[i] == if s.places[i] == Pending(t) then to else s.places[i]
    requires forall i: nat :: i < |s.events| && s.places[i] == Pending(t) ==>
        PlaceOk(i, s.events[i], to, threads', slots')
    ensures Placed(s.events, places', threads', slots')
  {
    forall i | 0 <= i < |s.events|
      ensures PlaceOk(i, s.events[i], places'[i], threads', slots')
    {
      assert PlaceOk(i, s.events[i], s.places[i], s.threads, s.slots);
      hide Inv;
      if s.places[i] != Pending(t) {
        PlaceStays(i, s.events[i], s.places[i], s.threads, threads', t, s.slots, slots');
      }
    }
  }

  /** A thread whose batch has just gone, and which is about to do what the program asked for. */
  lemma EmptiedThread(s: State, threads': map<Tid, Thread>, places': seq<Place>, t: Tid)
    requires Inv(s) && t in s.threads && |places'| == |s.events|
    requires s.threads[t].pc.Flushing? || s.threads[t].pc.Filling?
    requires threads' == s.threads[t := Thread(Acting(s.threads[t].pc.x, s.threads[t].pc.after), [])]
    ensures OnlyThread(s.threads, threads', t) && Owns(s.blocks, t, threads'[t].pc)
    ensures OnlyBlocks(s.blocks, s.blocks, t, {})
    ensures ThreadOk(t, threads'[t], s.events, places') && BehindOk(threads'[t], s.events, places')
    ensures HeldSlot(threads'[t].pc) == None
  {
    assert Owns(s.blocks, t, s.threads[t].pc);
  }

  lemma LoseBatchKeeps(s: State, s': State, t: Tid)
    requires Inv(s) && LoseBatch(s, s', t)
    ensures Inv(s')
  {
    var to := if s.attached then Dropped else Discarded;
    BatchMoves(s, s'.places, t, to);
    EmptiedThread(s, s'.threads, s'.places, t);
    assert SlotsGrow(s.slots, s.slots);
    MovedPlaced(s, s'.places, s'.threads, s.slots, t, to);
    SameSlotsInOrder(s.events, s.places, s'.places);
    hide Owned, Owns, Truth, Recorded, Separated, Threads, ThreadOk, Published, RecordOk, Placed, Held, HeldSlot,
        InOrder, Behind,
      BehindOk, Reader, Drained, OnlyThread, OnlyBlocks, OnlyPlaces, SameAllocSlots, SlotsGrow;
    OwnedStep(s.blocks, s'.blocks, s.threads, s'.threads, t, {});
    ThreadsStep(s.threads, s'.threads, t, s.events, s'.events, s.places, s'.places);
    PublishedStep(s.slots, s.slots, t, s.events, s'.events, s.places, s'.places);
    HeldStep(s.threads, s'.threads, t, s.slots);
    BehindStep(s.threads, s'.threads, t, s.events, s.places, s'.places);
    ReaderStep(s.events, s'.events, s.places, s'.places, s.done, s.arrived, s.book);
  }

  /** The batch goes to a place behind every allocation that one of its frees follows. */
  lemma FlushedInOrder(s: State, places': seq<Place>, t: Tid)
    requires Inv(s) && t in s.threads && s.threads[t].pc.Filling?
    requires |places'| == |s.places| == |s.events|
    requires forall i :: 0 <= i < |s.events| ==>
      places'[i] == if s.places[i] == Pending(t) then InSlot(s.threads[t].pc.slot) else s.places[i]
    requires forall i :: 0 <= i < |s.events| && s.places[i] == Pending(t) ==> s.events[i].Free?
    ensures InOrder(s.events, places')
  {
    var j := s.threads[t].pc.slot;
    forall i, e | 0 <= i < e < |s.events| && s.events[i].Alloc? && s.events[e].address == s.events[i].address
                  && SlotOf(places'[e]).Some?
      ensures Before(places'[i], SlotOf(places'[e]).value)
    {
      assert places'[i] == s.places[i];
      if s.places[e] == Pending(t) {
        PendingIsBatch(s, t, e);
        var k :| 0 <= k < |s.threads[t].batch| && s.threads[t].batch[k].seqno == e;
        InvBehind(s, t);
      } else {
        assert InOrder(s.events, s.places);
      }
    }
  }

  lemma PublishFlushKeeps(s: State, s': State, t: Tid)
    requires Inv(s) && PublishFlush(s, s', t)
    ensures Inv(s')
  {
    var p, batch := s.threads[t].pc, s.threads[t].batch;
    InHand(s, t);
    BatchMoves(s, s'.places, t, InSlot(p.slot));
    EmptiedThread(s, s'.threads, s'.places, t);
    assert SlotsGrow(s.slots, s'.slots) && Drained(s'.slots, s'.done);
    assert HeldSlot(p) == Some(p.slot);
    FlushedPlaced(s, s', t);
    FlushedInOrder(s, s'.places, t);
    FlushedRecord(s, s', t);
    hide Owned, Owns, Truth, Recorded, Separated, Threads, ThreadOk, Published, RecordOk, Placed, Held, HeldSlot,
        InOrder, Behind,
      BehindOk, Reader, Drained, OnlyThread, OnlyBlocks, OnlyPlaces, SameAllocSlots, SlotsGrow;
    OwnedStep(s.blocks, s'.blocks, s.threads, s'.threads, t, {});
    ThreadsStep(s.threads, s'.threads, t, s.events, s'.events, s.places, s'.places);
    PublishedStep(s.slots, s'.slots, t, s.events, s'.events, s.places, s'.places);
    FilledOneHeld(s.threads, s'.threads, t, s.slots, p.slot, FreeBatch(batch));
    BehindStep(s.threads, s'.threads, t, s.events, s.places, s'.places);
    ReaderStep(s.events, s'.events, s.places, s'.places, s.done, s.arrived, s.book);
  }

  lemma FlushedPlaced(s: State, s': State, t: Tid)
    requires Inv(s) && PublishFlush(s, s', t) && OnlyThread(s.threads, s'.threads, t) && SlotsGrow(s.slots, s'.slots)
    ensures Placed(s.events, s'.places, s'.threads, s'.slots)
  {
    var j := s.threads[t].pc.slot;
    BatchMoves(s, s'.places, t, InSlot(j));
    forall i: nat | i < |s.events| && s.places[i] == Pending(t)
      ensures PlaceOk(i, s.events[i], InSlot(j), s'.threads, s'.slots)
    {
      PendingIsBatch(s, t, i);
    }
    hide PlaceOk, Inv;
    MovedPlaced(s, s'.places, s'.threads, s'.slots, t, InSlot(j));
  }

  lemma FlushedRecord(s: State, s': State, t: Tid)
    requires Inv(s) && PublishFlush(s, s', t)
    ensures RecordOk(FreeBatch(s.threads[t].batch), s.threads[t].pc.slot, s'.events, s'.places)
  {
    assert ThreadOk(t, s.threads[t], s.events, s.places);
    assert |s.places| == |s.events|;
    hide Inv, Increasing;
  }

  // ---- The recorder takes a place ----

  lemma NumbersCarry(r: Record, i: nat)
    ensures i in Numbers(r) <==> Carries(r, i)
  {
    if r.FreeBatch? {
      if Mentions(r.entries, i) {
        var k :| 0 <= k < |r.entries| && r.entries[k].seqno == i;
        assert Numbers(r)[k] == i;
      }
    }
  }

  lemma AppliedFree(events: seq<Event>, order: seq<nat>, i: nat)
    requires InRange(events, order) && i < |events| && events[i].Free?
    ensures InRange(events, order + [i])
    ensures Applied(events, order + [i]) == TakeFree(Applied(events, order), events[i].address, i)
  {
    assert (order + [i])[..|order|] == order;
    hide TakeFree;
  }

  lemma NumbersGrow(entries: seq<FreeEntry>, n: nat)
    requires |entries| == n + 1
    ensures Numbers(FreeBatch(entries)) == Numbers(FreeBatch(entries[..n])) + [entries[n].seqno]
  {
  }

  /** The book applies a batch as if its frees arrived one by one. */
  lemma {:induction false} BatchApplies(events: seq<Event>, order: seq<nat>, entries: seq<FreeEntry>,
                                        places: seq<Place>, p: Place)
    requires InRange(events, order) && FreesAt(entries, events, places, p)
    ensures InRange(events, order + Numbers(FreeBatch(entries)))
    ensures TakeAll(Applied(events, order), entries) == Applied(events, order + Numbers(FreeBatch(entries)))
    decreases |entries|
  {
    hide TakeFree, Applied, InRange;
    if entries == [] {
      assert order + Numbers(FreeBatch(entries)) == order;
    } else {
      var n := |entries| - 1;
      var front := order + Numbers(FreeBatch(entries[..n]));
      assert FreesAt(entries[..n], events, places, p);
      assert events[entries[n].seqno] == Free(entries[n].address);
      hide FreesAt, Numbers;
      BatchApplies(events, order, entries[..n], places, p);
      AppliedFree(events, front, entries[n].seqno);
      NumbersGrow(entries, n);
      assert order + Numbers(FreeBatch(entries)) == front + [entries[n].seqno];
    }
  }

  lemma RecordApplies(events: seq<Event>, order: seq<nat>, r: Record, j: nat, places: seq<Place>)
    requires InRange(events, order) && RecordOk(r, j, events, places)
    ensures InRange(events, order + Numbers(r))
    ensures Processed(Applied(events, order), r) == Applied(events, order + Numbers(r))
  {
    match r
    case AllocRecord(i, _, _, _) =>
      assert (order + [i])[..|order|] == order;
    case FreeBatch(entries) =>
      BatchApplies(events, order, entries, places, InSlot(j));
  }

  /** An allocation arrives after nothing that came later at its address. */
  lemma AllocArrivesInTime(s: State, p: nat)
    requires Inv(s) && s.done < |s.slots| && s.slots[s.done].Some? && s.slots[s.done].value.AllocRecord?
    requires p < |s.arrived| && s.arrived[p] < |s.events| &&
        s.events[s.arrived[p]].address == s.slots[s.done].value.address
    ensures s.arrived[p] < s.slots[s.done].value.seqno
  {
    hide Owned, Truth, Separated, Threads, Placed, Held, Behind, Drained, Arrival, Applied;
    var a, e := s.slots[s.done].value.seqno, s.arrived[p];
    assert RecordOk(s.slots[s.done].value, s.done, s.events, s.places);
    assert HasArrived(s.arrived, e);
    assert s.places[e].InSlot? && s.places[e].slot < s.done;
    assert a < e ==> Before(s.places[a], SlotOf(s.places[e]).value);
  }

  lemma ConsumeInRange(s: State)
    requires Inv(s) && s.done < |s.slots| && s.slots[s.done].Some?
    ensures var all := s.arrived + Numbers(s.slots[s.done].value);
      && Arrival(s.events, s.arrived) && InRange(s.events, all)
      && forall q :: |s.arrived| <= q < |all| && s.events[all[q]].Alloc? ==>
           s.slots[s.done].value.AllocRecord? && all[q] == s.slots[s.done].value.seqno
           && s.events[all[q]].address == s.slots[s.done].value.address
  {
    hide Owned, Truth, Separated, Threads, Placed, Held, InOrder, Behind, Drained, Accounts, Applied, Increasing;
    assert RecordOk(s.slots[s.done].value, s.done, s.events, s.places);
  }

  lemma ConsumeArrival(s: State)
    requires Inv(s) && s.done < |s.slots| && s.slots[s.done].Some?
    ensures Arrival(s.events, s.arrived + Numbers(s.slots[s.done].value))
  {
    hide Inv, RecordOk;
    ConsumeInRange(s);
    hide Numbers;
    var r := s.slots[s.done].value;
    var all := s.arrived + Numbers(r);
    forall p, q | 0 <= p < q < |all| && s.events[all[q]].Alloc? && s.events[all[p]].address == s.events[all[q]].address
      ensures all[p] < all[q]
    {
      if q >= |s.arrived| {
        AllocArrivesInTime(s, p);
      } else {
        assert all[p] == s.arrived[p] && all[q] == s.arrived[q];
      }
    }
  }

  lemma ConsumeSeen(s: State, i: nat)
    requires Inv(s) && s.done < |s.slots| && s.slots[s.done].Some? && i < |s.events|
    ensures |s.places| == |s.events|
    ensures HasArrived(s.arrived + Numbers(s.slots[s.done].value), i) <==> Seen(s.places[i], s.done + 1)
  {
    var r := s.slots[s.done].value;
    assert RecordOk(r, s.done, s.events, s.places);
    assert PlaceOk(i, s.events[i], s.places[i], s.threads, s.slots);
    NumbersCarry(r, i);
    assert HasArrived(s.arrived, i) <==> Seen(s.places[i], s.done);
    hide Inv;
  }

  lemma ConsumeReader(s: State)
    requires Inv(s) && s.done < |s.slots| && s.slots[s.done].Some?
    ensures var r := s.slots[s.done].value;
      Reader(s.events, s.places, s.done + 1, s.arrived + Numbers(r), Processed(s.book, r))
  {
    var r := s.slots[s.done].value;
    assert RecordOk(r, s.done, s.events, s.places);
    assert |s.places| == |s.events|;
    InvBook(s);
    ConsumeArrival(s);
    assert InRange(s.events, s.arrived);
    RecordApplies(s.events, s.arrived, r, s.done, s.places);
    hide Inv, Arrival, HasArrived, Numbers, Processed, Applied, RecordOk;
    forall i: nat | i < |s.events|
      ensures HasArrived(s.arrived + Numbers(r), i) <==> Seen(s.places[i], s.done + 1)
    {
      ConsumeSeen(s, i);
    }
  }

  lemma {:induction false} BatchAccounts(sites: Sites, book: Live, entries: seq<FreeEntry>)
    requires Accounts(sites, book)
    ensures Accounts(SitesTakeAll(sites, book, entries), TakeAll(book, entries))
    decreases |entries|
  {
    hide Balanced, WellFilled, TakeFree, SitesTakeFree;
    if entries == [] {
    } else {
      var n := |entries| - 1;
      BatchAccounts(sites, book, entries[..n]);
      FreeBalances(SitesTakeAll(sites, book, entries[..n]), TakeAll(book, entries[..n]), entries[n].address,
                   entries[n].seqno);
    }
  }

  lemma RecordAccounts(sites: Sites, book: Live, r: Record)
    requires Accounts(sites, book)
    ensures Accounts(Counted(sites, book, r), Processed(book, r))
  {
    match r
    case AllocRecord(i, x, size, site) =>
      StaysFilled(book, x, LiveAlloc(i, size, site), 0);
      hide Balanced, WellFilled, AddAlloc, SitesAfterAlloc, TakeFree;
      AddAllocBalances(sites, book, x, LiveAlloc(i, size, site));
    case FreeBatch(entries) =>
      BatchAccounts(sites, book, entries);
  }

  lemma ConsumeKeeps(s: State, s': State)
    requires Inv(s) && Consume(s, s')
    ensures Inv(s')
  {
    ConsumeReader(s);
    RecordAccounts(s.sites, s.book, s.slots[s.done].value);
    assert Drained(s'.slots, s'.done);
    hide Accounts, Counted, Owned, Truth, Separated, Threads, Published, Placed, Held, InOrder, Behind, Reader,
        Drained, Processed, Numbers;
  }

  lemma InvBook(s: State)
    requires Inv(s)
    ensures Arrival(s.events, s.arrived) && s.book == Applied(s.events, s.arrived)
  {
  }

  // ---- Whole runs ----

  lemma InitInv(s: State)
    requires Init(s)
    ensures Inv(s)
  {
    EmptyBalance();
    hide Balanced;
    assert Truth(s.blocks, s.events);
  }

  lemma ThreadStepInv(s: State, s': State, t: Tid)
    requires Inv(s) && ThreadStep(s, s', t)
    ensures Inv(s')
  {
    hide Inv, MallocUnsampled, MallocSampled, ReserveAlloc, SkipRecord, StampAlloc, PublishAlloc, StartFree, StampFree,
      ReserveFlush, LoseBatch, PublishFlush, ActFree, ActRealloc, FailRealloc;
    if x :| MallocUnsampled(s, s', t, x) {
      MallocUnsampledKeeps(s, s', t, x);
    } else if x, size, site :| MallocSampled(s, s', t, x, size, site) {
      MallocSampledKeeps(s, s', t, x, size, site);
    } else if ReserveAlloc(s, s', t) || ReserveFlush(s, s', t) {
      ReserveKeeps(s, s', t);
    } else if SkipRecord(s, s', t) || FailRealloc(s, s', t) {
      HandBackKeeps(s, s', t);
    } else if StampAlloc(s, s', t) {
      StampAllocKeeps(s, s', t);
    } else if PublishAlloc(s, s', t) {
      PublishAllocKeeps(s, s', t);
    } else if x, after :| StartFree(s, s', t, x, after) {
      StartFreeKeeps(s, s', t, x, after);
    } else if stale :| StampFree(s, s', t, stale) {
      StampFreeKeeps(s, s', t, stale);
    } else if LoseBatch(s, s', t) {
      LoseBatchKeeps(s, s', t);
    } else if PublishFlush(s, s', t) {
      PublishFlushKeeps(s, s', t);
    } else if ActFree(s, s', t) {
      ActFreeKeeps(s, s', t);
    } else {
      var y, sampled, size, site :| ActRealloc(s, s', t, y, sampled, size, site);
      ActReallocKeeps(s, s', t, y, sampled, size, site);
    }
  }

  lemma HandBackKeeps(s: State, s': State, t: Tid)
    requires Inv(s) && (SkipRecord(s, s', t) || FailRealloc(s, s', t))
    ensures Inv(s')
  {
    hide Inv;
    LetGoKeeps(s, s', t);
  }

  lemma NextInv(s: State, s': State)
    requires Inv(s) && Next(s, s')
    ensures Inv(s')
  {
    if Detach(s, s') {
    } else {
      hide Inv, Detach, Consume, ThreadStep;
      if Consume(s, s') {
        ConsumeKeeps(s, s');
      } else {
        var t :| ThreadStep(s, s', t);
        ThreadStepInv(s, s', t);
      }
    }
  }

  ghost predicate Run(states: seq<State>) {
    && states != [] && Init(states[0])
    && forall i, j :: 0 <= i < |states| && j == i + 1 && j < |states| ==> Next(states[i], states[j])
  }

  lemma {:induction false} RunInv(states: seq<State>, n: nat)
    requires Run(states) && n < |states|
    ensures Inv(states[n])
    decreases n
  {
    hide Init, Next, Inv;
    if n == 0 {
      InitInv(states[0]);
    } else {
      RunInv(states, n - 1);
      NextInv(states[n - 1], states[n]);
    }
  }

  // ---- The ring is the queue that the ring protocol implements ----

  /** The records taken so far. */
  function Taken(slots: seq<Option<Record>>, done: nat): (r: seq<Record>)
    requires done <= |slots| && forall j :: 0 <= j < done ==> slots[j].Some?
    ensures |r| == done
  {
    seq(done, j requires 0 <= j < done => slots[j].value)
  }

  ghost predicate UsesQueue(s: State, s': State) {
    && Drained(s.slots, s.done) && Drained(s'.slots, s'.done)
    && RingProtocol.QueueStep(s.slots[s.done..], s'.slots[s'.done..], Taken(s.slots, s.done), Taken(s'.slots, s'.done))
  }

  lemma ReservingUsesQueue(s: State, s': State)
    requires Drained(s.slots, s.done) && s'.slots == s.slots + [None] && s'.done == s.done
    ensures UsesQueue(s, s')
  {
    assert s'.slots[s'.done..] == s.slots[s.done..] + [None];
    assert Taken(s'.slots, s'.done) == Taken(s.slots, s.done);
  }

  lemma FillingUsesQueue(s: State, s': State, j: nat, r: Record)
    requires Drained(s.slots, s.done) && s.done <= j < |s.slots| && s.slots[j] == None
    requires s'.slots == s.slots[j := Some(r)] && s'.done == s.done
    ensures UsesQueue(s, s')
  {
    var q := s.slots[s.done..];
    assert q[j - s.done] == None;
    assert s'.slots[s'.done..] == q[j - s.done := Some(r)];
    assert Taken(s'.slots, s'.done) == Taken(s.slots, s.done);
  }

  lemma TakenOneMore(slots: seq<Option<Record>>, done: nat)
    requires done < |slots| && forall j :: 0 <= j <= done ==> slots[j].Some?
    ensures slots[done..][1..] == slots[done + 1..]
    ensures Taken(slots, done + 1) == Taken(slots, done) + [slots[done].value]
  {
  }

  lemma TakingUsesQueue(s: State, s': State)
    requires Drained(s.slots, s.done) && Consume(s, s')
    ensures UsesQueue(s, s')
  {
    hide Consume, Taken;
    ConsumeMoves(s, s');
    TakenOneMore(s.slots, s.done);
  }

  lemma ConsumeMoves(s: State, s': State)
    requires Consume(s, s')
    ensures s'.slots == s.slots && s'.done == s.done + 1 && s.done < |s.slots| && s.slots[s.done].Some?
  {
    hide Numbers, Processed;
  }

  lemma SlotsStay(s: State, s': State, t: Tid)
    requires ThreadStep(s, s', t)
    requires !ReserveAlloc(s, s', t) && !ReserveFlush(s, s', t) && !PublishAlloc(s, s', t) && !PublishFlush(s, s', t)
    ensures s'.slots == s.slots && s'.done == s.done
  {
    hide ReserveAlloc, ReserveFlush, PublishAlloc, PublishFlush, Moved;
  }

  lemma ThreadUsesQueue(s: State, s': State, t: Tid)
    requires Inv(s) && ThreadStep(s, s', t)
    ensures UsesQueue(s, s')
  {
    assert Drained(s.slots, s.done);
    if t in s.threads && HeldSlot(s.threads[t].pc).Some? {
      InHand(s, t);
    }
    hide Inv, Drained, UsesQueue, Moved, ThreadStep;
    if ReserveAlloc(s, s', t) || ReserveFlush(s, s', t) {
      ReservingUsesQueue(s, s');
    } else if PublishAlloc(s, s', t) {
      FillingUsesQueue(s, s', s.threads[t].pc.slot, s.threads[t].pc.record);
    } else if PublishFlush(s, s', t) {
      FillingUsesQueue(s, s', s.threads[t].pc.slot, FreeBatch(s.threads[t].batch));
    } else {
      SlotsStay(s, s', t);
      IdleUsesQueue(s, s');
    }
  }

  lemma IdleUsesQueue(s: State, s': State)
    requires Drained(s.slots, s.done) && s'.slots == s.slots && s'.done == s.done
    ensures UsesQueue(s, s')
  {
  }

  /**
   * Each step of a session asks nothing of the ring but one step of the queue that RingProtocol.StepRefinesQueue
   * gives.
   */
  lemma SessionUsesQueue(s: State, s': State)
    requires Inv(s) && Next(s, s')
    ensures UsesQueue(s, s')
  {
    if Detach(s, s') {
      assert Drained(s.slots, s.done);
      IdleUsesQueue(s, s');
    } else if Consume(s, s') {
      assert Drained(s.slots, s.done);
      TakingUsesQueue(s, s');
    } else {
      hide Inv, ThreadStep;
      var t :| ThreadStep(s, s', t);
      ThreadUsesQueue(s, s', t);
    }
  }

  // ---- What a session guarantees ----

  /**
   * Sequence order is ownership order: at every point of every run the numbers drawn so far say, of every
   * address, exactly whether a recorded block is live there and which one; and between two recorded allocations
   * at one address they always have a free of it.
   */
  lemma SequenceIsOwnership(states: seq<State>, n: nat, x: U64)
    requires Run(states) && n < |states|
    ensures LiveAt(LiveNow(states[n].events), x) == Recorded(states[n].blocks, x)
    ensures Separated(states[n].events)
  {
    RunInv(states, n);
    hide LiveNow, Separated;
  }

  ghost predicate PendingAt(s: State, t: Tid, k: nat, i: nat) {
    t in s.threads && k < |s.threads[t].batch| && s.threads[t].batch[k].seqno == i
  }

  ghost predicate PublishedAt(s: State, j: nat, k: nat, i: nat) {
    && j < |s.slots| && s.slots[j].Some? && s.slots[j].value.FreeBatch?
    && k < |s.slots[j].value.entries| && s.slots[j].value.entries[k].seqno == i
  }

  lemma PendingMeans(s: State, t: Tid, k: nat, i: nat)
    requires Inv(s) && PendingAt(s, t, k, i)
    ensures i < |s.places| && s.places[i] == Pending(t)
  {
    assert ThreadOk(t, s.threads[t], s.events, s.places);
  }

  lemma PublishedMeans(s: State, j: nat, k: nat, i: nat)
    requires Inv(s) && PublishedAt(s, j, k, i)
    ensures i < |s.places| && s.places[i] == InSlot(j)
  {
    assert RecordOk(s.slots[j].value, j, s.events, s.places);
  }

  lemma NumbersDiffer(entries: seq<FreeEntry>, k: nat, m: nat)
    requires Increasing(entries) && k < |entries| && m < |entries| && entries[k].seqno == entries[m].seqno
    ensures k == m
  {
  }

  lemma PendingOnce(s: State, t: Tid, k: nat, u: Tid, m: nat, i: nat)
    requires Inv(s) && PendingAt(s, t, k, i) && PendingAt(s, u, m, i)
    ensures t == u && k == m
  {
    PendingMeans(s, t, k, i);
    PendingMeans(s, u, m, i);
    assert ThreadOk(t, s.threads[t], s.events, s.places);
    hide Inv, FreesAt;
    NumbersDiffer(s.threads[t].batch, k, m);
  }

  lemma PublishedOnce(s: State, j: nat, k: nat, l: nat, m: nat, i: nat)
    requires Inv(s) && PublishedAt(s, j, k, i) && PublishedAt(s, l, m, i)
    ensures j == l && k == m
  {
    PublishedMeans(s, j, k, i);
    PublishedMeans(s, l, m, i);
    assert RecordOk(s.slots[j].value, j, s.events, s.places);
    hide Inv, FreesAt;
    NumbersDiffer(s.slots[j].value.entries, k, m);
  }

  lemma FreeIsSomewhere(s: State, i: nat)
    requires Inv(s) && i < |s.events| && s.events[i].Free?
    ensures i < |s.places|
    ensures !s.places[i].Writing?
    ensures s.places[i].Pending? ==> exists k :: PendingAt(s, s.places[i].t, k, i)
    ensures s.places[i].InSlot? ==> exists k :: PublishedAt(s, s.places[i].slot, k, i)
  {
    assert PlaceOk(i, s.events[i], s.places[i], s.threads, s.slots);
    if s.places[i].Pending? {
      var k :| 0 <= k < |s.threads[s.places[i].t].batch| && s.threads[s.places[i].t].batch[k].seqno == i;
      assert PendingAt(s, s.places[i].t, k, i);
    } else if s.places[i].InSlot? {
      var r := s.slots[s.places[i].slot].value;
      assert RecordOk(r, s.places[i].slot, s.events, s.places);
      assert r.FreeBatch?;
      var k :| 0 <= k < |r.entries| && r.entries[k].seqno == i;
      assert PublishedAt(s, s.places[i].slot, k, i);
    }
  }

  /**
   * Frees are conserved: a queued free is in the pending batch of exactly one thread, or in exactly one published
   * batch, or in a batch dropped on a full ring, or in one discarded without a ring; and never in two of these.
   */
  lemma FreesConserved(states: seq<State>, n: nat, i: nat)
    requires Run(states) && n < |states| && i < |states[n].events| && states[n].events[i].Free?
    ensures i < |states[n].places|
    ensures var s := states[n];
      var p := s.places[i];
      && (p.Pending? || p.InSlot? || p.Dropped? || p.Discarded?)
      && (p.Pending? <==> exists t, k :: PendingAt(s, t, k, i))
      && (p.InSlot? <==> exists j, k :: PublishedAt(s, j, k, i))
      && (forall t, k, u, m :: PendingAt(s, t, k, i) && PendingAt(s, u, m, i) ==> t == u && k == m)
      && (forall j, k, l, m :: PublishedAt(s, j, k, i) && PublishedAt(s, l, m, i) ==> j == l && k == m)
  {
    RunInv(states, n);
    var s := states[n];
    hide Inv, Run, PendingAt, PublishedAt;
    FreeIsSomewhere(s, i);
    forall t, k | PendingAt(s, t, k, i)
      ensures s.places[i].Pending?
    {
      PendingMeans(s, t, k, i);
    }
    forall j, k | PublishedAt(s, j, k, i)
      ensures s.places[i].InSlot?
    {
      PublishedMeans(s, j, k, i);
    }
    forall t, k, u, m | PendingAt(s, t, k, i) && PendingAt(s, u, m, i)
      ensures t == u && k == m
    {
      PendingOnce(s, t, k, u, m, i);
    }
    forall j, k, l, m | PublishedAt(s, j, k, i) && PublishedAt(s, l, m, i)
      ensures j == l && k == m
    {
      PublishedOnce(s, j, k, l, m, i);
    }
  }

  /** Between calls a thread's batch has room, and its entries are in sequence order. */
  lemma BatchHasRoom(states: seq<State>, n: nat, t: Tid)
    requires Run(states) && n < |states| && t in states[n].threads
    ensures var thread := states[n].threads[t];
      && Increasing(thread.batch)
      && (thread.pc.Idle? || thread.pc.Freeing? ==> |thread.batch| < FREE_BATCH_CAP)
  {
    RunInv(states, n);
    assert ThreadOk(t, states[n].threads[t], states[n].events, states[n].places);
  }

  // ---- What the book says about a block is what its call was sampled with ----

  /** The record of a block carries the size and the site of the call that made it. */
  ghost predicate LabelOk(b: Block, x: U64, events: seq<Event>) {
    b.recorded.Some? ==>
      b.recorded.value < |events| && events[b.recorded.value] == Alloc(x, b.call.size, b.call.site)
  }

  /** A shim that is about to write a record has the size and the site of the call. */
  ghost predicate AskedOk(pc: Pc, blocks: map<U64, Block>) {
    pc.Allocated? || pc.Reserved? ==> pc.x in blocks && blocks[pc.x].call == Call(pc.size, pc.site)
  }

  ghost predicate Labelled(s: State) {
    && (forall x :: x in s.blocks ==> LabelOk(s.blocks[x], x, s.events))
    && (forall t :: t in s.threads ==> AskedOk(s.threads[t].pc, s.blocks))
  }

  lemma LabelledStep(s: State, s': State, t: Tid, changed: set<U64>)
    requires Labelled(s) && Owned(s.blocks, s.threads) && s.events <= s'.events
    requires OnlyThread(s.threads, s'.threads, t) && OnlyBlocks(s.blocks, s'.blocks, t, changed)
    requires AskedOk(s'.threads[t].pc, s'.blocks)
    requires forall x :: x in changed && x in s'.blocks ==> LabelOk(s'.blocks[x], x, s'.events)
    ensures Labelled(s')
  {
    forall x | x in s'.blocks
      ensures LabelOk(s'.blocks[x], x, s'.events)
    {
      assert x !in changed ==> LabelOk(s.blocks[x], x, s.events);
    }
    forall u | u in s'.threads
      ensures AskedOk(s'.threads[u].pc, s'.blocks)
    {
      if u != t {
        assert Owns(s.blocks, u, s.threads[u].pc) && AskedOk(s.threads[u].pc, s.blocks);
      }
    }
  }

  lemma CallLabels(s: State, s': State, t: Tid, x: U64, size: nat, site: Site)
    requires Labelled(s) && Owned(s.blocks, s.threads)
    requires MallocUnsampled(s, s', t, x) || MallocSampled(s, s', t, x, size, site)
    ensures Labelled(s')
  {
    hide Labelled, Owned;
    assert AskedOk(s.threads[t].pc, s.blocks) by { AskedAt(s, t); }
    LabelledStep(s, s', t, {x});
  }

  lemma AskedAt(s: State, t: Tid)
    requires Labelled(s) && t in s.threads
    ensures AskedOk(s.threads[t].pc, s.blocks)
    ensures s.threads[t].pc.Idle? || s.threads[t].pc.x !in s.blocks
         || LabelOk(s.blocks[s.threads[t].pc.x], s.threads[t].pc.x, s.events)
  {
  }

  lemma OwnsAt(s: State, t: Tid)
    requires Owned(s.blocks, s.threads) && t in s.threads
    ensures Owns(s.blocks, t, s.threads[t].pc)
  {
  }

  lemma ShimLabels(s: State, s': State, t: Tid)
    requires Labelled(s) && Owned(s.blocks, s.threads)
    requires ReserveAlloc(s, s', t) || SkipRecord(s, s', t) || PublishAlloc(s, s', t) || FailRealloc(s, s', t)
    ensures Labelled(s')
  {
    hide Labelled, Owned;
    AskedAt(s, t);
    OwnsAt(s, t);
    LabelledStep(s, s', t, {s.threads[t].pc.x});
  }

  lemma StampLabels(s: State, s': State, t: Tid)
    requires Labelled(s) && Owned(s.blocks, s.threads) && StampAlloc(s, s', t)
    ensures Labelled(s')
  {
    hide Labelled, Owned;
    AskedAt(s, t);
    OwnsAt(s, t);
    LabelledStep(s, s', t, {s.threads[t].pc.x});
  }

  lemma FreeLabels(s: State, s': State, t: Tid)
    requires Labelled(s) && Owned(s.blocks, s.threads)
    requires ReserveFlush(s, s', t) || LoseBatch(s, s', t) || PublishFlush(s, s', t) || ActFree(s, s', t)
    ensures Labelled(s')
  {
    hide Labelled, Owned, Moved;
    AskedAt(s, t);
    OwnsAt(s, t);
    LabelledStep(s, s', t, {s.threads[t].pc.x});
  }

  lemma StartLabels(s: State, s': State, t: Tid, x: U64, after: After)
    requires Labelled(s) && Owned(s.blocks, s.threads) && StartFree(s, s', t, x, after)
    ensures Labelled(s')
  {
    assert LabelOk(s.blocks[x], x, s.events);
    hide Labelled, Owned;
    LabelledStep(s, s', t, {x});
  }

  lemma StampFreeLabels(s: State, s': State, t: Tid, stale: bool)
    requires Labelled(s) && Owned(s.blocks, s.threads) && StampFree(s, s', t, stale)
    ensures Labelled(s')
  {
    hide Labelled, Owned;
    AskedAt(s, t);
    OwnsAt(s, t);
    LabelledStep(s, s', t, {s.threads[t].pc.x});
  }

  lemma ReallocLabels(s: State, s': State, t: Tid, y: U64, sampled: bool, size: nat, site: Site)
    requires Labelled(s) && Owned(s.blocks, s.threads) && ActRealloc(s, s', t, y, sampled, size, site)
    ensures Labelled(s')
  {
    hide Labelled, Owned;
    OwnsAt(s, t);
    LabelledStep(s, s', t, {s.threads[t].pc.x, y});
  }

  lemma ThreadLabels(s: State, s': State, t: Tid)
    requires Labelled(s) && Owned(s.blocks, s.threads) && ThreadStep(s, s', t)
    ensures Labelled(s')
  {
    hide Labelled, Owned, MallocUnsampled, MallocSampled, ReserveAlloc, SkipRecord, StampAlloc, PublishAlloc, StartFree,
      StampFree, ReserveFlush, LoseBatch, PublishFlush, ActFree, ActRealloc, FailRealloc;
    if x :| MallocUnsampled(s, s', t, x) {
      CallLabels(s, s', t, x, 0, []);
    } else if x, size, site :| MallocSampled(s, s', t, x, size, site) {
      CallLabels(s, s', t, x, size, site);
    } else if StampAlloc(s, s', t) {
      StampLabels(s, s', t);
    } else if x, after :| StartFree(s, s', t, x, after) {
      StartLabels(s, s', t, x, after);
    } else if stale :| StampFree(s, s', t, stale) {
      StampFreeLabels(s, s', t, stale);
    } else if y, sampled, size, site :| ActRealloc(s, s', t, y, sampled, size, site) {
      ReallocLabels(s, s', t, y, sampled, size, site);
    } else if ReserveFlush(s, s', t) || LoseBatch(s, s', t) || PublishFlush(s, s', t) || ActFree(s, s', t) {
      FreeLabels(s, s', t);
    } else {
      ShimLabels(s, s', t);
    }
  }

  lemma NextLabels(s: State, s': State)
    requires Labelled(s) && Owned(s.blocks, s.threads) && Next(s, s')
    ensures Labelled(s')
  {
    hide Owned, ThreadStep, Numbers, Processed, Counted;
    if t :| ThreadStep(s, s', t) {
      hide Labelled;
      ThreadLabels(s, s', t);
    }
  }

  lemma {:induction false} RunLabels(states: seq<State>, n: nat)
    requires Run(states) && n < |states|
    ensures Labelled(states[n])
    decreases n
  {
    hide Labelled, Inv, Next;
    if n == 0 {
      NothingLabelled(states[0]);
    } else {
      RunLabels(states, n - 1);
      RunInv(states, n - 1);
      InvOwned(states[n - 1]);
      NextLabels(states[n - 1], states[n]);
    }
  }

  lemma NothingLabelled(s: State)
    requires Init(s)
    ensures Labelled(s)
  {
  }

  lemma InvOwned(s: State)
    requires Inv(s)
    ensures Owned(s.blocks, s.threads)
  {
  }

  lemma LabelAt(states: seq<State>, n: nat, x: U64)
    requires Run(states) && n < |states| && Recorded(states[n].blocks, x).Some?
    ensures var s := states[n];
      var a := Recorded(s.blocks, x).value;
      a < |s.events| && s.events[a] == Alloc(x, s.blocks[x].call.size, s.blocks[x].call.site)
  {
    RunLabels(states, n);
    hide Run;
    assert LabelOk(states[n].blocks[x], x, states[n].events);
  }

  /** The entry for a recorded block: its number, and the size and the site of the call that made it. */
  function EntryOf(b: Block): LiveAlloc
    requires b.recorded.Some?
  {
    LiveAlloc(b.recorded.value, b.call.size, b.call.site)
  }

  /** However many batches were lost, a live recorded block whose record has been read is in the book. */
  lemma LiveBlockIsBooked(states: seq<State>, n: nat, x: U64)
    requires Run(states) && n < |states|
    requires Recorded(states[n].blocks, x).Some? && HasArrived(states[n].arrived, Recorded(states[n].blocks, x).value)
    ensures var s := states[n];
      x in s.book && EntryOf(s.blocks[x]) in s.book[x]
  {
    hide Run, Inv, Applied, Ascending, Authentic;
    RunInv(states, n);
    LabelAt(states, n, x);
    var s := states[n];
    var a := Recorded(s.blocks, x).value;
    InvBook(s);
    RecordedIsNewest(s, x);
    BookMeaning(s.events, s.arrived, x);
    hide Arrival;
    assert Unfreed(s.events, s.arrived, a, x);
  }

  lemma RecordedIsNewest(s: State, x: U64)
    requires Inv(s) && Recorded(s.blocks, x).Some?
    ensures var a := Recorded(s.blocks, x).value;
      IsAlloc(s.events, a, x) && forall i :: a < i < |s.events| ==> s.events[i].address != x
  {
    assert LiveAt(LiveNow(s.events), x) == Recorded(s.blocks, x);
    LiveNowMeans(s.events, x);
  }

  /** The recorder has seen everything that happened at one address. */
  ghost predicate AllSeen(s: State, x: U64) {
    forall i: nat :: i < |s.events| && s.events[i].address == x ==> HasArrived(s.arrived, i)
  }

  /**
   * Whatever else is pending or lost, once the recorder has seen everything that happened at an address, the book
   * has an entry there exactly when a recorded block is there that no free was queued for, and it is that block's
   * own: with the size and the site of the call that made the block.
   */
  lemma BookIsExact(states: seq<State>, n: nat, x: U64)
    requires Run(states) && n < |states| && AllSeen(states[n], x)
    ensures var s := states[n];
      && (x in s.book <==> Recorded(s.blocks, x).Some?)
      && (x in s.book ==> s.book[x] == [EntryOf(s.blocks[x])])
  {
    hide Run, Inv, AllSeen, Applied, LiveNow, Separated, CompleteAt, Arrival;
    RunInv(states, n);
    var s := states[n];
    InvBook(s);
    TrueAt(s, x);
    AddressIsTrue(s.events, s.arrived, x);
    if Recorded(s.blocks, x).Some? {
      LabelAt(states, n, x);
    }
  }

  lemma TrueAt(s: State, x: U64)
    requires Inv(s) && AllSeen(s, x)
    ensures Separated(s.events) && CompleteAt(s.events, s.arrived, x)
    ensures LiveAt(LiveNow(s.events), x) == Recorded(s.blocks, x)
  {
    assert Separated(s.events);
    assert CompleteAt(s.events, s.arrived, x) by {
      assert forall i: nat :: i < |s.events| && s.events[i].address == x ==> HasArrived(s.arrived, i);
    }
    assert LiveAt(LiveNow(s.events), x) == Recorded(s.blocks, x);
  }

  /** The program rests, the recorder has caught up, and no batch was lost. */
  ghost predicate CaughtUp(s: State) {
    && (forall t :: t in s.threads ==> s.threads[t] == Thread(Idle, []))
    && s.done == |s.slots|
    && Dropped !in s.places && Discarded !in s.places
  }

  lemma CaughtUpIsSeen(s: State, x: U64)
    requires Inv(s) && CaughtUp(s)
    ensures AllSeen(s, x)
  {
    assert |s.places| == |s.events|;
    forall i: nat | i < |s.events|
      ensures HasArrived(s.arrived, i)
    {
      assert PlaceOk(i, s.events[i], s.places[i], s.threads, s.slots);
      assert HasArrived(s.arrived, i) <==> Seen(s.places[i], s.done);
      hide Inv;
      assert s.places[i] in s.places;
    }
  }

  /** The book for the recorded blocks that no free was queued for, each with its own entry. */
  function RecordedBook(s: State): Live {
    map x | x in s.blocks && Recorded(s.blocks, x).Some? :: [EntryOf(s.blocks[x])]
  }

  /**
   * Once everything has settled the book is exact everywhere, and so is the profile: at every call site what was
   * allocated is what was freed and what the recorded, unfreed blocks of that site hold, in bytes and in number.
   */
  lemma ProfileIsExact(states: seq<State>, n: nat, p: Site)
    requires Run(states) && n < |states| && CaughtUp(states[n])
    ensures var s := states[n];
      && s.book == RecordedBook(s)
      && StatsAt(s.sites, p).allocBytes == StatsAt(s.sites, p).freeBytes + Outstanding(Bytes, RecordedBook(s), p)
      && StatsAt(s.sites, p).allocCount == StatsAt(s.sites, p).freeCount + Outstanding(Count, RecordedBook(s), p)
  {
    RunInv(states, n);
    var s := states[n];
    assert Balanced(s.sites, s.book);
    hide Inv, Run, CaughtUp, AllSeen, Outstanding, Balanced;
    forall x: U64
      ensures x in s.book <==> x in RecordedBook(s)
      ensures x in s.book ==> s.book[x] == RecordedBook(s)[x]
    {
      CaughtUpIsSeen(s, x);
      BookIsExact(states, n, x);
    }
    assert s.book == RecordedBook(s);
    BalanceAt(s.sites, s.book, p);
  }

  lemma BalanceAt(sites: Sites, live: Live, p: Site)
    requires Balanced(sites, live)
    ensures StatsAt(sites, p).allocBytes == StatsAt(sites, p).freeBytes + Outstanding(Bytes, live, p)
    ensures StatsAt(sites, p).allocCount == StatsAt(sites, p).freeCount + Outstanding(Count, live, p)
  {
    hide Outstanding, StatsAt;
  }
}
