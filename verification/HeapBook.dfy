/**
 * How the recorder pairs frees with allocations. For every address it keeps the recorded allocations that no free
 * has been matched with. Frees come late and shuffled, and the book still comes out right, because both kinds of
 * event carry numbers from one counter.
 */
module HeapBook {
  import opened Bits

  type Site = seq<U64>

  /** A recorded allocation that no free has taken so far. */
  datatype LiveAlloc = LiveAlloc(seqno: nat, size: nat, site: Site)

  /** What the instrumented program did, in the order of the sequence numbers that its threads drew. */
  datatype Event = Alloc(address: U64, size: nat, site: Site) | Free(address: U64)

  type Live = map<U64, seq<LiveAlloc>>

  function ListAt(live: Live, x: U64): seq<LiveAlloc> {
    if x in live then live[x] else []
  }

  /** No address is kept with an empty list, and every list is in sequence order. */
  ghost predicate WellKept(live: Live) {
    forall x :: x in live ==> live[x] != [] && Ascending(live[x])
  }

  ghost predicate Ascending(list: seq<LiveAlloc>) {
    forall i, j :: 0 <= i < j < |list| ==> list[i].seqno < list[j].seqno
  }

  /** How many entries at the front of the list are older than `seqno`. */
  function PartitionPoint(list: seq<LiveAlloc>, seqno: nat): (n: nat)
    ensures n <= |list|
    ensures forall i :: 0 <= i < n ==> list[i].seqno < seqno
    ensures n < |list| ==> list[n].seqno >= seqno
  {
    if list == [] || list[0].seqno >= seqno then 0 else 1 + PartitionPoint(list[1..], seqno)
  }

  function Remove(list: seq<LiveAlloc>, i: nat): (r: seq<LiveAlloc>)
    requires i < |list|
    ensures |r| == |list| - 1
    ensures forall j :: 0 <= j < |r| ==> r[j] == if j < i then list[j] else list[j + 1]
  {
    list[..i] + list[i + 1..]
  }

  function AddAlloc(live: Live, x: U64, a: LiveAlloc): Live {
    live[x := ListAt(live, x) + [a]]
  }

  /** A free takes the newest live allocation at its address that is older than itself. */
  function TakeFree(live: Live, x: U64, seqno: nat): Live {
    var n := PartitionPoint(ListAt(live, x), seqno);
    if n == 0 then live
    else
      var rest := Remove(ListAt(live, x), n - 1);
      if rest == [] then live - {x} else live[x := rest]
  }

  /** The event with index `i`, applied to the book. */
  function ApplyOne(events: seq<Event>, live: Live, i: nat): Live
    requires i < |events|
  {
    match events[i]
    case Alloc(x, size, site) => AddAlloc(live, x, LiveAlloc(i, size, site))
    case Free(x) => TakeFree(live, x, i)
  }

  predicate InRange(events: seq<Event>, order: seq<nat>) {
    forall p :: 0 <= p < |order| ==> order[p] < |events|
  }

  /** The book after the events have been applied in the order in which they arrived. */
  function Applied(events: seq<Event>, order: seq<nat>): Live
    requires InRange(events, order)
  {
    if order == [] then map[]
    else ApplyOne(events, Applied(events, order[..|order| - 1]), order[|order| - 1])
  }

  predicate IsAlloc(events: seq<Event>, i: int, x: U64) {
    0 <= i < |events| && events[i].Alloc? && events[i].address == x
  }

  predicate IsFree(events: seq<Event>, i: int, x: U64) {
    0 <= i < |events| && events[i].Free? && events[i].address == x
  }

  /** Two recorded allocations at one address always have a free of that address between them. */
  ghost predicate Separated(events: seq<Event>) {
    forall a, b, x :: a < b && IsAlloc(events, a, x) && IsAlloc(events, b, x) ==>
      exists f :: a < f < b && IsFree(events, f, x)
  }

  /** Arrival may shuffle events, but never an allocation past a later event of the same address. */
  ghost predicate Arrival(events: seq<Event>, order: seq<nat>) {
    && InRange(events, order)
    && forall p, q ::
         (0 <= p < q < |order| && events[order[q]].Alloc? && events[order[p]].address == events[order[q]].address)
         ==> order[p] < order[q]
  }

  ghost predicate ArrivedFree(events: seq<Event>, order: seq<nat>, f: int, x: U64) {
    f in order && IsFree(events, f, x)
  }

  /** Nothing was recorded at `x` between the indices `a` and `f`. */
  ghost predicate NoAllocBetween(events: seq<Event>, a: int, f: int, x: U64) {
    forall b :: a < b < f ==> !IsAlloc(events, b, x)
  }

  /** No free of `x` younger than `a` has arrived. */
  ghost predicate Unfreed(events: seq<Event>, order: seq<nat>, a: int, x: U64) {
    forall f :: ArrivedFree(events, order, f, x) ==> f < a
  }

  /** Every entry is a recorded allocation of this address that has arrived, with its own size and site. */
  ghost predicate Authentic(events: seq<Event>, order: seq<nat>, x: U64, list: seq<LiveAlloc>) {
    forall k :: 0 <= k < |list| ==>
      && list[k].seqno in order && list[k].seqno < |events|
      && events[list[k].seqno] == Alloc(x, list[k].size, list[k].site)
  }

  /** An entry whose own free has arrived is gone. */
  ghost predicate Settled(events: seq<Event>, order: seq<nat>, x: U64, list: seq<LiveAlloc>) {
    forall k, f :: 0 <= k < |list| && ArrivedFree(events, order, f, x) && list[k].seqno < f ==>
      !NoAllocBetween(events, list[k].seqno, f, x)
  }

  /** An allocation that has arrived, and no later free of its address with it, is there. */
  ghost predicate Kept(events: seq<Event>, order: seq<nat>, x: U64, list: seq<LiveAlloc>) {
    forall a :: a in order && IsAlloc(events, a, x) && Unfreed(events, order, a, x) ==>
      LiveAlloc(a, events[a].size, events[a].site) in list
  }

  /** What the list at `x` must hold once `order` has arrived. */
  ghost predicate ListMeans(events: seq<Event>, order: seq<nat>, x: U64, list: seq<LiveAlloc>) {
    Ascending(list) && Authentic(events, order, x, list) && Settled(events, order, x, list) &&
        Kept(events, order, x, list)
  }

  // ---- One arrival ----

  lemma Extended(order: seq<nat>, i: nat)
    ensures forall j :: j in order + [i] <==> j in order || j == i
  {
  }

  lemma ArrivesLast(events: seq<Event>, order: seq<nat>, a: nat, i: nat)
    requires Arrival(events, order + [a]) && a < |events| && i < |events|
    requires events[a].Alloc? && i in order && events[i].address == events[a].address
    ensures i < a
  {
    var order' := order + [a];
    var p :| 0 <= p < |order| && order[p] == i;
    assert order'[p] == i && order'[|order|] == a;
  }

  lemma FreesAfterAlloc(events: seq<Event>, order: seq<nat>, a: nat, x: U64)
    requires Arrival(events, order + [a]) && IsAlloc(events, a, x)
    ensures forall f :: ArrivedFree(events, order + [a], f, x) <==> ArrivedFree(events, order, f, x)
    ensures Unfreed(events, order + [a], a, x)
    ensures forall b :: Unfreed(events, order + [a], b, x) <==> Unfreed(events, order, b, x)
  {
    Extended(order, a);
    hide Arrival;
    forall f | ArrivedFree(events, order + [a], f, x)
      ensures f < a
    {
      ArrivesLast(events, order, a, f);
    }
  }

  lemma AllocArrives(events: seq<Event>, order: seq<nat>, x: U64, list: seq<LiveAlloc>, a: nat)
    requires Arrival(events, order + [a]) && IsAlloc(events, a, x) && ListMeans(events, order, x, list)
    ensures ListMeans(events, order + [a], x, list + [LiveAlloc(a, events[a].size, events[a].site)])
  {
    var order' := order + [a];
    var list' := list + [LiveAlloc(a, events[a].size, events[a].site)];
    Extended(order, a);
    FreesAfterAlloc(events, order, a, x);
    assert forall k :: 0 <= k < |list| ==> list'[k] == list[k];
    assert list'[|list|] == LiveAlloc(a, events[a].size, events[a].site);
    assert Kept(events, order', x, list') by {
      hide Arrival, Ascending, Authentic, Settled, ArrivedFree, Unfreed;
    }
    assert Authentic(events, order', x, list') by {
      hide Arrival, Ascending, Settled, Kept;
    }
    assert Settled(events, order', x, list') by {
      hide Arrival, Ascending, Kept, Authentic, ArrivedFree, NoAllocBetween;
    }
    assert Ascending(list') by {
      hide Settled, Kept, Arrival;
      forall k | 0 <= k < |list|
        ensures list[k].seqno < a
      {
        ArrivesLast(events, order, a, list[k].seqno);
      }
    }
  }

  /** The list after a free has taken its entry. */
  function AfterFree(list: seq<LiveAlloc>, f: nat): seq<LiveAlloc> {
    var n := PartitionPoint(list, f);
    if n == 0 then list else Remove(list, n - 1)
  }

  /** Whatever stays was there, in the same relative order; only the newest entry older than the free is gone. */
  lemma AfterFreeFrom(list: seq<LiveAlloc>, f: nat, k: nat)
    requires k < |AfterFree(list, f)|
    ensures exists j :: k <= j <= k + 1 && j < |list| && AfterFree(list, f)[k] == list[j]
  {
    var n := PartitionPoint(list, f);
    var j := if n == 0 || k < n - 1 then k else k + 1;
    assert AfterFree(list, f)[k] == list[j];
  }

  lemma AfterFreeAscending(list: seq<LiveAlloc>, f: nat)
    requires Ascending(list)
    ensures Ascending(AfterFree(list, f))
  {
  }

  lemma OlderStaysBehind(list: seq<LiveAlloc>, f: nat, k: nat)
    requires Ascending(list) && k < |AfterFree(list, f)| && AfterFree(list, f)[k].seqno < f
    ensures var n := PartitionPoint(list, f); 0 < n <= |list| && AfterFree(list, f)[k].seqno < list[n - 1].seqno < f
  {
    var n := PartitionPoint(list, f);
    assert forall j :: n <= j < |list| ==> list[j].seqno >= f;
  }

  lemma YoungerStays(list: seq<LiveAlloc>, f: nat, l: LiveAlloc)
    requires l in list && l.seqno > f
    ensures l in AfterFree(list, f)
  {
    var n := PartitionPoint(list, f);
    var k :| 0 <= k < |list| && list[k] == l;
    if n > 0 {
      assert k >= n;
      assert AfterFree(list, f)[k - 1] == l;
    }
  }

  lemma FreeSettles(events: seq<Event>, order: seq<nat>, x: U64, list: seq<LiveAlloc>, f: nat)
    requires IsFree(events, f, x) && ListMeans(events, order, x, list)
    ensures Settled(events, order + [f], x, AfterFree(list, f))
  {
    Extended(order, f);
    var list' := AfterFree(list, f);
    hide Kept, AfterFree, Ascending;
    forall k, g | 0 <= k < |list'| && ArrivedFree(events, order + [f], g, x) && list'[k].seqno < g
      ensures !NoAllocBetween(events, list'[k].seqno, g, x)
    {
      AfterFreeFrom(list, f, k);
      var j :| k <= j <= k + 1 && j < |list| && list'[k] == list[j];
      if g == f {
        OlderStaysBehind(list, f, k);
        var taken := list[PartitionPoint(list, f) - 1];
        assert IsAlloc(events, taken.seqno, x);
      } else {
        assert ArrivedFree(events, order, g, x);
      }
    }
  }

  lemma FreeKeeps(events: seq<Event>, order: seq<nat>, x: U64, list: seq<LiveAlloc>, f: nat)
    requires IsFree(events, f, x) && Kept(events, order, x, list)
    ensures Kept(events, order + [f], x, AfterFree(list, f))
  {
    var order' := order + [f];
    Extended(order, f);
    hide AfterFree;
    forall b | b in order' && IsAlloc(events, b, x) && Unfreed(events, order', b, x)
      ensures LiveAlloc(b, events[b].size, events[b].site) in AfterFree(list, f)
    {
      assert ArrivedFree(events, order', f, x);
      assert forall g :: ArrivedFree(events, order, g, x) ==> ArrivedFree(events, order', g, x);
      YoungerStays(list, f, LiveAlloc(b, events[b].size, events[b].site));
    }
  }

  lemma FreeArrives(events: seq<Event>, order: seq<nat>, x: U64, list: seq<LiveAlloc>, f: nat)
    requires IsFree(events, f, x) && ListMeans(events, order, x, list)
    ensures ListMeans(events, order + [f], x, AfterFree(list, f))
  {
    var list' := AfterFree(list, f);
    FreeSettles(events, order, x, list, f);
    FreeKeeps(events, order, x, list, f);
    AfterFreeAscending(list, f);
    Extended(order, f);
    hide AfterFree, Ascending, Settled, Kept;
    forall k | 0 <= k < |list'|
      ensures list'[k].seqno in order + [f] && list'[k].seqno < |events|
      ensures events[list'[k].seqno] == Alloc(x, list'[k].size, list'[k].site)
    {
      AfterFreeFrom(list, f, k);
    }
  }

  lemma OtherAddress(events: seq<Event>, order: seq<nat>, i: nat, x: U64, list: seq<LiveAlloc>)
    requires ListMeans(events, order, x, list) && i < |events| && events[i].address != x
    ensures ListMeans(events, order + [i], x, list)
  {
    var order' := order + [i];
    Extended(order, i);
    assert forall f :: ArrivedFree(events, order', f, x) <==> ArrivedFree(events, order, f, x);
    hide ArrivedFree;
    assert forall b :: Unfreed(events, order', b, x) <==> Unfreed(events, order, b, x);
    hide Unfreed, NoAllocBetween, Ascending;
  }

  // ---- Every arrival order ----

  lemma ArrivalPrefix(events: seq<Event>, order: seq<nat>, n: nat)
    requires Arrival(events, order) && n <= |order|
    ensures Arrival(events, order[..n])
  {
  }

  lemma ApplyOneAt(events: seq<Event>, live: Live, i: nat, x: U64)
    requires i < |events| && WellKept(live)
    ensures ListAt(ApplyOne(events, live, i), x) ==
      if events[i].address != x then ListAt(live, x)
      else if events[i].Alloc? then ListAt(live, x) + [LiveAlloc(i, events[i].size, events[i].site)]
      else AfterFree(ListAt(live, x), i)
  {
    hide PartitionPoint, Ascending;
  }

  lemma ApplyOneKeeps(events: seq<Event>, live: Live, i: nat)
    requires i < |events| && WellKept(live)
    requires Ascending(ListAt(ApplyOne(events, live, i), events[i].address))
    ensures WellKept(ApplyOne(events, live, i))
  {
    hide PartitionPoint, Ascending;
  }

  /** Whatever the arrival order, the book's list at every address means what `ListMeans` says. */
  lemma {:induction false} BookMeaning(events: seq<Event>, order: seq<nat>, x: U64)
    requires Arrival(events, order)
    ensures ListMeans(events, order, x, ListAt(Applied(events, order), x))
    ensures WellKept(Applied(events, order))
    decreases |order|
  {
    if order == [] {
    } else {
      hide Arrival, ListMeans, WellKept, Ascending, ApplyOne, AfterFree;
      var n := |order| - 1;
      var before, i := order[..n], order[n];
      assert before + [i] == order;
      ArrivalPrefix(events, order, n);
      var y := events[i].address;
      BookMeaning(events, before, y);
      Arrives(events, before, i, y);
      ApplyOneKeeps(events, Applied(events, before), i);
      if x != y {
        BookMeaning(events, before, x);
        Arrives(events, before, i, x);
      }
    }
  }

  lemma Arrives(events: seq<Event>, before: seq<nat>, i: nat, x: U64)
    requires Arrival(events, before + [i]) && Arrival(events, before) && i < |events|
    requires ListMeans(events, before, x, ListAt(Applied(events, before), x)) && WellKept(Applied(events, before))
    ensures ListMeans(events, before + [i], x, ListAt(ApplyOne(events, Applied(events, before), i), x))
    ensures Ascending(ListAt(ApplyOne(events, Applied(events, before), i), x))
  {
    assert InRange(events, before) && InRange(events, before + [i]);
    hide Arrival, WellKept, Ascending, ApplyOne, AfterFree, Authentic, Settled, Kept, Applied;
    var live := Applied(events, before);
    ApplyOneAt(events, live, i, x);
    if events[i].address != x {
      OtherAddress(events, before, i, x, ListAt(live, x));
    } else if events[i].Alloc? {
      AllocArrives(events, before, x, ListAt(live, x), i);
    } else {
      FreeArrives(events, before, x, ListAt(live, x), i);
    }
  }

  // ---- Arrival order does not matter ----

  /** The truth: the recorded allocations that are unfreed after the events in sequence order. */
  function LiveNow(events: seq<Event>): map<U64, nat> {
    if events == [] then map[]
    else
      var n := |events| - 1;
      match events[n]
      case Alloc(x, _, _) => LiveNow(events[..n])[x := n]
      case Free(x) => LiveNow(events[..n]) - {x}
  }

  lemma {:induction false} LiveNowMeans(events: seq<Event>, x: U64)
    ensures x in LiveNow(events) ==>
      IsAlloc(events, LiveNow(events)[x], x) && forall i :: LiveNow(events)[x] < i < |events| ==> events[i].address != x
    ensures x !in LiveNow(events) ==>
      forall a :: IsAlloc(events, a, x) ==> exists f :: a < f && IsFree(events, f, x)
    decreases |events|
  {
    if events == [] {
    } else {
      var n := |events| - 1;
      var before := events[..n];
      LiveNowMeans(before, x);
      if x !in LiveNow(events) {
        forall a | IsAlloc(events, a, x)
          ensures exists f :: a < f && IsFree(events, f, x)
        {
          if events[n].address == x {
            assert IsFree(events, n, x);
          } else {
            assert IsAlloc(before, a, x);
            var f :| a < f && IsFree(before, f, x);
            assert IsFree(events, f, x);
          }
        }
      }
    }
  }

  ghost predicate Complete(events: seq<Event>, order: seq<nat>) {
    forall i :: 0 <= i < |events| ==> i in order
  }

  /** Everything that happened at one address has arrived. */
  ghost predicate CompleteAt(events: seq<Event>, order: seq<nat>, x: U64) {
    forall i :: 0 <= i < |events| && events[i].address == x ==> i in order
  }

  /** Between two recorded allocations at one address there is a free of it. */
  lemma FreeBetween(events: seq<Event>, a: nat, b: nat, x: U64) returns (f: nat)
    requires Separated(events) && a < b && IsAlloc(events, a, x) && IsAlloc(events, b, x)
    ensures a < f < b && IsFree(events, f, x)
  {
    f :| a < f < b && IsFree(events, f, x);
  }

  /** A freed allocation has a first free, before anything else is recorded at its address. */
  lemma FirstFree(events: seq<Event>, order: seq<nat>, a: nat, f0: nat, x: U64) returns (f: nat)
    requires a < f0 && IsFree(events, f0, x) && IsAlloc(events, a, x) && Separated(events) &&
        CompleteAt(events, order, x)
    ensures a < f && ArrivedFree(events, order, f, x) && NoAllocBetween(events, a, f, x)
    decreases f0
  {
    if b: nat :| a < b < f0 && IsAlloc(events, b, x) {
      var g := FreeBetween(events, a, b, x);
      f := FirstFree(events, order, a, g, x);
    } else {
      f := f0;
    }
  }

  lemma EntryIsUnfreed(events: seq<Event>, order: seq<nat>, x: U64, list: seq<LiveAlloc>, k: nat, f: int)
    requires Separated(events) && CompleteAt(events, order, x) && ListMeans(events, order, x, list) && k < |list|
    requires IsFree(events, f, x)
    ensures f <= list[k].seqno
  {
    hide Separated, Kept, Ascending, CompleteAt;
    if list[k].seqno < f {
      var g := FirstFree(events, order, list[k].seqno, f, x);
    }
  }

  lemma NothingAfterUnfreed(events: seq<Event>, a: nat, b: nat, x: U64)
    requires Separated(events) && IsAlloc(events, a, x) && IsAlloc(events, b, x)
    requires forall f :: IsFree(events, f, x) ==> f <= a
    ensures b <= a
  {
  }

  lemma FirstBelowSecond(list: seq<LiveAlloc>)
    requires Ascending(list)
    ensures |list| > 1 ==> list[0].seqno < list[1].seqno
  {
  }

  lemma CompleteList(events: seq<Event>, order: seq<nat>, x: U64, list: seq<LiveAlloc>)
    requires Separated(events) && CompleteAt(events, order, x) && ListMeans(events, order, x, list)
    ensures |list| <= 1
    ensures |list| == 1 <==> x in LiveNow(events)
    ensures |list| == 1 ==> list[0].seqno == LiveNow(events)[x]
  {
    LiveNowMeans(events, x);
    FirstBelowSecond(list);
    if |list| > 0 {
      var a := list[0].seqno;
      assert IsAlloc(events, a, x);
      forall f | IsFree(events, f, x)
        ensures f <= a
      {
        EntryIsUnfreed(events, order, x, list, 0, f);
      }
      hide Separated, LiveNow;
      forall b: nat | IsAlloc(events, b, x)
        ensures b <= a
      {
        NothingAfterUnfreed(events, a, b, x);
      }
      assert forall k :: 0 <= k < |list| ==> IsAlloc(events, list[k].seqno, x);
    }
    if x in LiveNow(events) {
      var a := LiveNow(events)[x];
      assert Unfreed(events, order, a, x);
      assert LiveAlloc(a, events[a].size, events[a].site) in list;
    }
  }

  /** The recorder's book for the truth `LiveNow`. */
  function TrueBook(events: seq<Event>): Live {
    var now := LiveNow(events);
    map x | x in now && IsAlloc(events, now[x], x) :: [LiveAlloc(now[x], events[now[x]].size, events[now[x]].site)]
  }

  /**
   * The list at an address is the truth as soon as everything that happened there has arrived, whatever else has not.
   */
  lemma AddressIsTrue(events: seq<Event>, order: seq<nat>, x: U64)
    requires Arrival(events, order) && Separated(events) && CompleteAt(events, order, x)
    ensures var live, now := Applied(events, order), LiveNow(events);
      && (x in live <==> x in now)
      && (x in now ==>
            IsAlloc(events, now[x], x) && live[x] == [LiveAlloc(now[x], events[now[x]].size, events[now[x]].site)])
  {
    var live := Applied(events, order);
    hide Arrival, Separated, CompleteAt, Applied, LiveNow;
    BookMeaning(events, order, x);
    var list := ListAt(live, x);
    CompleteList(events, order, x, list);
    LiveNowMeans(events, x);
    assert x in live <==> list != [];
  }

  /**
   * However late and shuffled the frees arrive, once everything has arrived the book holds exactly the recorded
   * allocations still live, each under its address with its own size and site.
   */
  lemma ArrivalOrderIsIrrelevant(events: seq<Event>, order: seq<nat>)
    requires Arrival(events, order) && Separated(events) && Complete(events, order)
    ensures Applied(events, order) == TrueBook(events)
  {
    var live := Applied(events, order);
    var now := LiveNow(events);
    forall x: U64
      ensures CompleteAt(events, order, x)
    {
    }
    hide Arrival, Separated, Complete, CompleteAt, Applied, LiveNow;
    forall x: U64
      ensures x in live <==> x in now
      ensures x in now ==> IsAlloc(events, now[x], x)
      ensures x in live ==> live[x] == [LiveAlloc(now[x], events[now[x]].size, events[now[x]].site)]
    {
      AddressIsTrue(events, order, x);
    }
  }

  // ---- The book as the recorder keeps it, with the totals of every site ----

  /** The totals of one call site: bytes and allocations seen, bytes and allocations freed. */
  datatype SiteStats = SiteStats(allocBytes: nat, freeBytes: nat, allocCount: nat, freeCount: nat)

  type Sites = map<Site, SiteStats>

  /** What a total counts: the sampled bytes, or the allocations. */
  datatype Unit = Bytes | Count

  /** What one entry adds to the total of site `p`. */
  function Share(u: Unit, l: LiveAlloc, p: Site): nat {
    if l.site != p then 0 else if u.Bytes? then l.size else 1
  }

  /** The part of a list that belongs to one site. */
  function ListTotal(u: Unit, list: seq<LiveAlloc>, p: Site): nat {
    if list == [] then 0
    else ListTotal(u, list[..|list| - 1], p) + Share(u, list[|list| - 1], p)
  }

  ghost function Totals(u: Unit, live: Live, p: Site): map<U64, nat> {
    map x | x in live :: ListTotal(u, live[x], p)
  }

  ghost function Sum(m: map<U64, nat>): nat
    decreases |m|
  {
    if m == map[] then 0
    else
      var x :| x in m;
      assert |m - {x}| < |m| by { Shrinks(m, x); }
      m[x] + Sum(m - {x})
  }

  lemma Shrinks(m: map<U64, nat>, x: U64)
    requires x in m
    ensures |m - {x}| < |m|
  {
    assert (m - {x}).Keys == m.Keys - {x};
  }

  lemma {:induction false} SumPicks(m: map<U64, nat>, x: U64)
    requires x in m
    ensures Sum(m) == m[x] + Sum(m - {x})
    decreases |m|
  {
    var y :| y in m && Sum(m) == m[y] + Sum(m - {y});
    if y == x {
    } else {
      Shrinks(m, y);
      Shrinks(m, x);
      SumPicks(m - {y}, x);
      SumPicks(m - {x}, y);
      assert m - {y} - {x} == m - {x} - {y};
    }
  }

  /** What one site still has live, over every address. */
  ghost function Outstanding(u: Unit, live: Live, p: Site): nat {
    Sum(Totals(u, live, p))
  }

  ghost predicate SameElsewhere(before: Live, after: Live, x: U64) {
    forall y :: y != x ==> ListAt(before, y) == ListAt(after, y) && (y in before <==> y in after)
  }

  lemma TotalsElsewhere(u: Unit, before: Live, after: Live, x: U64, p: Site)
    requires SameElsewhere(before, after, x)
    ensures Totals(u, before, p) - {x} == Totals(u, after, p) - {x}
  {
    hide ListTotal;
    forall y | y != x && y in before
      ensures y in after && before[y] == after[y]
    {
      assert ListAt(before, y) == ListAt(after, y);
    }
  }

  lemma OutstandingSplits(u: Unit, live: Live, x: U64, p: Site)
    ensures Outstanding(u, live, p) == ListTotal(u, ListAt(live, x), p) + Sum(Totals(u, live, p) - {x})
  {
    hide Sum;
    var t := Totals(u, live, p);
    if x in t {
      SumPicks(t, x);
    } else {
      assert t - {x} == t;
    }
  }

  /** Changing the list at one address changes the sum by exactly what the list changed. */
  lemma OutstandingMoves(u: Unit, before: Live, after: Live, x: U64, p: Site)
    requires SameElsewhere(before, after, x)
    ensures Outstanding(u, after, p) + ListTotal(u, ListAt(before, x), p)
         == Outstanding(u, before, p) + ListTotal(u, ListAt(after, x), p)
  {
    hide *;
    OutstandingSplits(u, before, x, p);
    OutstandingSplits(u, after, x, p);
    TotalsElsewhere(u, before, after, x, p);
  }

  lemma {:induction false} ListTotalAppend(u: Unit, a: seq<LiveAlloc>, b: seq<LiveAlloc>, p: Site)
    ensures ListTotal(u, a + b, p) == ListTotal(u, a, p) + ListTotal(u, b, p)
    decreases |b|
  {
    if b == [] {
      assert a + b == a;
    } else {
      var n := |b| - 1;
      ListTotalAppend(u, a, b[..n], p);
      assert (a + b)[..|a + b| - 1] == a + b[..n];
    }
  }

  lemma ListTotalOne(u: Unit, l: LiveAlloc, p: Site)
    ensures ListTotal(u, [l], p) == Share(u, l, p)
  {
    assert [l][..0] == [];
  }

  lemma ListTotalRemove(u: Unit, list: seq<LiveAlloc>, i: nat, p: Site)
    requires i < |list|
    ensures ListTotal(u, list, p) == ListTotal(u, Remove(list, i), p) + Share(u, list[i], p)
  {
    assert list == list[..i] + ([list[i]] + list[i + 1..]) && Remove(list, i) == list[..i] + list[i + 1..];
    hide *;
    ListTotalAppend(u, list[..i], [list[i]] + list[i + 1..], p);
    ListTotalAppend(u, [list[i]], list[i + 1..], p);
    ListTotalOne(u, list[i], p);
    ListTotalAppend(u, list[..i], list[i + 1..], p);
  }

  function StatsAt(sites: Sites, p: Site): SiteStats {
    if p in sites then sites[p] else SiteStats(0, 0, 0, 0)
  }

  /** Conservation: at every site, what was allocated is what was freed plus what is still live. */
  ghost predicate Balanced(sites: Sites, live: Live) {
    forall p ::
      && StatsAt(sites, p).allocBytes == StatsAt(sites, p).freeBytes + Outstanding(Bytes, live, p)
      && StatsAt(sites, p).allocCount == StatsAt(sites, p).freeCount + Outstanding(Count, live, p)
  }

  lemma EmptyBalance()
    ensures Balanced(map[], map[])
  {
    forall p: Site, u: Unit
      ensures Outstanding(u, map[], p) == 0
    {
      assert Totals(u, map[], p) == map[];
    }
  }

  function SitesAfterAlloc(sites: Sites, a: LiveAlloc): Sites {
    var s := StatsAt(sites, a.site);
    sites[a.site := s.(allocBytes := s.allocBytes + a.size, allocCount := s.allocCount + 1)]
  }

  function SitesAfterFree(sites: Sites, l: LiveAlloc): Sites {
    if l.site !in sites then sites
    else
      var s := sites[l.site];
      sites[l.site := s.(freeBytes := s.freeBytes + l.size, freeCount := s.freeCount + 1)]
  }

  /** The totals after a free: the site of the entry it takes is credited, and nothing changes when it takes none. */
  function SitesTakeFree(sites: Sites, live: Live, x: U64, seqno: nat): Sites {
    if PartitionPoint(ListAt(live, x), seqno) == 0 then sites else SitesAfterFree(sites, Taken(live, x, seqno))
  }

  lemma AddAllocMoves(u: Unit, live: Live, x: U64, a: LiveAlloc, p: Site)
    ensures Outstanding(u, AddAlloc(live, x, a), p)
         == Outstanding(u, live, p) + Share(u, a, p)
  {
    hide Outstanding, ListTotal;
    OutstandingMoves(u, live, AddAlloc(live, x, a), x, p);
    ListTotalAppend(u, ListAt(live, x), [a], p);
    ListTotalOne(u, a, p);
  }

  lemma AddAllocBalances(sites: Sites, live: Live, x: U64, a: LiveAlloc)
    requires Balanced(sites, live)
    ensures Balanced(SitesAfterAlloc(sites, a), AddAlloc(live, x, a))
  {
    hide Outstanding, AddAlloc;
    forall p: Site
      ensures StatsAt(SitesAfterAlloc(sites, a), p).allocBytes
           == StatsAt(SitesAfterAlloc(sites, a), p).freeBytes + Outstanding(Bytes, AddAlloc(live, x, a), p)
      ensures StatsAt(SitesAfterAlloc(sites, a), p).allocCount
           == StatsAt(SitesAfterAlloc(sites, a), p).freeCount + Outstanding(Count, AddAlloc(live, x, a), p)
    {
      AddAllocMoves(Bytes, live, x, a, p);
      AddAllocMoves(Count, live, x, a, p);
    }
  }

  lemma TakeFreeMoves(u: Unit, live: Live, x: U64, seqno: nat, p: Site)
    requires WellFilled(live) && PartitionPoint(ListAt(live, x), seqno) > 0
    ensures var l := Taken(live, x, seqno);
      Outstanding(u, live, p) == Outstanding(u, TakeFree(live, x, seqno), p) + Share(u, l, p)
  {
    hide Outstanding, ListTotal, PartitionPoint, Remove;
    var list, i := ListAt(live, x), PartitionPoint(ListAt(live, x), seqno) - 1;
    OutstandingMoves(u, live, TakeFree(live, x, seqno), x, p);
    ListTotalRemove(u, list, i, p);
    assert ListAt(TakeFree(live, x, seqno), x) == Remove(list, i);
  }

  ghost predicate WellFilled(live: Live) {
    forall x :: x in live ==> live[x] != []
  }

  /** The entry that a free with this sequence number takes. */
  function Taken(live: Live, x: U64, seqno: nat): LiveAlloc
    requires PartitionPoint(ListAt(live, x), seqno) > 0
  {
    ListAt(live, x)[PartitionPoint(ListAt(live, x), seqno) - 1]
  }

  lemma TakeFreeBalances(sites: Sites, live: Live, x: U64, seqno: nat)
    requires Balanced(sites, live) && WellFilled(live) && PartitionPoint(ListAt(live, x), seqno) > 0
    ensures Taken(live, x, seqno).site in sites
    ensures Balanced(SitesTakeFree(sites, live, x, seqno), TakeFree(live, x, seqno))
  {
    hide Outstanding, TakeFree, Taken, PartitionPoint;
    var l := Taken(live, x, seqno);
    TakeFreeMoves(Count, live, x, seqno, l.site);
    assert StatsAt(sites, l.site).allocCount > 0;
    forall p: Site
      ensures StatsAt(SitesAfterFree(sites, l), p).allocBytes
           == StatsAt(SitesAfterFree(sites, l), p).freeBytes + Outstanding(Bytes, TakeFree(live, x, seqno), p)
      ensures StatsAt(SitesAfterFree(sites, l), p).allocCount
           == StatsAt(SitesAfterFree(sites, l), p).freeCount + Outstanding(Count, TakeFree(live, x, seqno), p)
    {
      TakeFreeMoves(Bytes, live, x, seqno, p);
      TakeFreeMoves(Count, live, x, seqno, p);
    }
  }

  lemma StaysFilled(live: Live, x: U64, a: LiveAlloc, seqno: nat)
    requires WellFilled(live)
    ensures WellFilled(AddAlloc(live, x, a)) && WellFilled(TakeFree(live, x, seqno))
  {
    hide PartitionPoint;
  }

  lemma FreeBalances(sites: Sites, live: Live, x: U64, seqno: nat)
    requires Balanced(sites, live) && WellFilled(live)
    ensures Balanced(SitesTakeFree(sites, live, x, seqno), TakeFree(live, x, seqno)) &&
        WellFilled(TakeFree(live, x, seqno))
  {
    StaysFilled(live, x, LiveAlloc(0, 0, []), seqno);
    if PartitionPoint(ListAt(live, x), seqno) > 0 {
      TakeFreeBalances(sites, live, x, seqno);
    }
    hide Balanced, WellFilled, PartitionPoint, AddAlloc, SitesAfterFree, Taken;
  }

  /** The recorder's book. */
  class HeapBook {
    var sites: Sites
    var live: Live

    ghost predicate Valid()
      reads this
    {
      WellFilled(live) && Balanced(sites, live)
    }

    constructor ()
      ensures Valid() && live == map[] && sites == map[]
    {
      sites, live := map[], map[];
      EmptyBalance();
    }

    method ApplyAlloc(seqno: nat, addr: U64, sampleSize: nat, pcs: Site)
      requires Valid()
      modifies this
      ensures Valid()
      ensures live == AddAlloc(old(live), addr, LiveAlloc(seqno, sampleSize, pcs))
      ensures sites == SitesAfterAlloc(old(sites), LiveAlloc(seqno, sampleSize, pcs))
    {
      ghost var a := LiveAlloc(seqno, sampleSize, pcs);
      AddAllocBalances(sites, live, addr, a);
      StaysFilled(live, addr, a, seqno);
      hide Balanced, WellFilled, PartitionPoint, TakeFree;
      var s := if pcs in sites then sites[pcs] else SiteStats(0, 0, 0, 0);
      s := s.(allocBytes := s.allocBytes + sampleSize);
      s := s.(allocCount := s.allocCount + 1);
      assert sites[pcs := s] == SitesAfterAlloc(sites, a);
      var list := if addr in live then live[addr] else [];
      assert live[addr := list + [a]] == AddAlloc(live, addr, a);
      hide SitesAfterAlloc, AddAlloc, StatsAt, ListAt;
      sites := sites[pcs := s];
      live := live[addr := list + [LiveAlloc(seqno, sampleSize, pcs)]];
    }

    /** The site of a freed entry is credited with it. */
    method Credit(l: LiveAlloc)
      modifies this`sites
      ensures sites == SitesAfterFree(old(sites), l)
    {
      if l.site in sites {
        var s := sites[l.site];
        s := s.(freeBytes := s.freeBytes + l.size);
        s := s.(freeCount := s.freeCount + 1);
        sites := sites[l.site := s];
      }
    }

    /** A free that matches nothing leaves everything as it was. */
    method ApplyFree(seqno: nat, addr: U64)
      requires Valid() && Ascending(ListAt(live, addr))
      modifies this
      ensures Valid()
      ensures live == TakeFree(old(live), addr, seqno)
      ensures sites == SitesTakeFree(old(sites), old(live), addr, seqno)
    {
      if addr !in live {
        return;
      }
      var list := live[addr];
      var i := PartitionPoint(list, seqno);
      if i == 0 {
        return;
      }
      TakeFreeBalances(sites, live, addr, seqno);
      StaysFilled(live, addr, list[0], seqno);
      hide Balanced, PartitionPoint, Ascending, WellFilled, AddAlloc, SitesAfterFree;
      var l := list[i - 1];
      list := Remove(list, i - 1);
      hide Remove;
      if list == [] {
        live := live - {addr};
      } else {
        live := live[addr := list];
      }
      Credit(l);
    }
  }
}
